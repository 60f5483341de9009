/**
 * The extraction pipeline of the appointment service: choosing a generation
 * model, the adapter around one generation call (empty-reply check, code-fence
 * stripping, JSON parsing) and the two-call pipeline with its confidence
 * guardrail.
 *
 * Everything outside the process is an input: the reply of the model-listing
 * endpoint, a backend that answers each generation request, and the JSON
 * parser (together with the reading of the expected fields) as a partial
 * function from text to a typed record.
 */
module AiService {

  import opened Wrappers
  import opened JsText

  // ===========================================================================
  // Model selection
  // ===========================================================================

  const FallbackModel: string := "models/gemini-1.0-pro"
  const GenerateContent: string := "generateContent"

  /** One element of the listing's `models` array. */
  datatype ModelEntry = ModelEntry(name: string, supportedMethods: Option<seq<string>>)

  /** The listing request either fails or yields a body whose `models` may be absent. */
  datatype ListReply = ListFailed | Listed(models: Option<seq<ModelEntry>>)

  predicate SupportsGeneration(m: ModelEntry) {
    m.supportedMethods.Some? && GenerateContent in m.supportedMethods.value
  }

  /** `k` is the position `Array.prototype.find` stops at. */
  predicate IsFirstSupporting(ms: seq<ModelEntry>, k: nat) {
    k < |ms| && SupportsGeneration(ms[k]) &&
    forall j :: 0 <= j < k ==> !SupportsGeneration(ms[j])
  }

  /** No listed model can serve generation requests (or there is no list at all). */
  predicate NoUsableModel(reply: ListReply) {
    reply.ListFailed? || reply.models.None? ||
    forall j :: 0 <= j < |reply.models.value| ==> !SupportsGeneration(reply.models.value[j])
  }

  /** The index of the first entry that supports generation, if any. */
  function FindSupporting(ms: seq<ModelEntry>): (r: Option<nat>)
    ensures r.Some? ==> IsFirstSupporting(ms, r.value)
    ensures r.None? ==> forall j :: 0 <= j < |ms| ==> !SupportsGeneration(ms[j])
    decreases |ms|
  {
    if ms == [] then None
    else if SupportsGeneration(ms[0]) then Some(0)
    else match FindSupporting(ms[1..])
      case None => None
      case Some(k) => Some(k + 1)
  }

  /** The model name every generation call of one pipeline run targets; it never fails. */
  function SelectModel(reply: ListReply): (name: string)
    ensures forall k: nat :: reply.Listed? && reply.models.Some? && IsFirstSupporting(reply.models.value, k)
              ==> name == reply.models.value[k].name
    ensures NoUsableModel(reply) ==> name == FallbackModel
  {
    match reply
    case ListFailed => FallbackModel
    case Listed(None) => FallbackModel
    case Listed(Some(ms)) =>
      match FindSupporting(ms)
      case Some(k) => ms[k].name
      case None => FallbackModel
  }

  // ===========================================================================
  // Code-fence stripping
  // ===========================================================================

  const Fence: string := "```"
  const JsonFence: string := "```json"

  /** Removes every "```json", then every "```", then the surrounding whitespace. */
  function StripFences(text: string): (r: string)
    ensures |r| <= |text| && IsTrimmed(r)
  {
    Trim(RemoveAll(RemoveAll(text, JsonFence), Fence))
  }

  /** A string that does not start with one backtick after another still does not once fences are removed. */
  lemma NoDoubleTickAfterRemoval(t: string)
    requires !StartsWith(t, "``")
    ensures !StartsWith(RemoveAll(t, Fence), "``")
  {
    if t != [] && t[0] == '`' && |t| > 1 {
      assert !StartsWith(t, Fence);
      assert !StartsWith(t[1..], Fence);
      assert RemoveAll(t[1..], Fence)[0] == t[1];
    }
  }

  /**
   * Removing "```" leaves no "```" behind, for any input. This includes the
   * triples that the earlier "```json" removal can join together ("`````json`"
   * becomes "```").
   */
  lemma {:induction false} RemoveFenceLeavesNone(s: string)
    ensures !Contains(RemoveAll(s, Fence), Fence)
    decreases |s|
  {
    if s == [] {
    } else if StartsWith(s, Fence) {
      RemoveFenceLeavesNone(s[3..]);
    } else {
      var rest := RemoveAll(s[1..], Fence);
      RemoveFenceLeavesNone(s[1..]);
      if s[0] == '`' {
        NoDoubleTickAfterRemoval(s[1..]);
      }
      assert ([s[0]] + rest)[1..] == rest;
    }
  }

  /** The stripped text never holds a backtick triple. */
  lemma StripFencesRemovesFences(text: string)
    ensures !Contains(StripFences(text), Fence)
  {
    var u := RemoveAll(RemoveAll(text, JsonFence), Fence);
    RemoveFenceLeavesNone(RemoveAll(text, JsonFence));
    if Contains(Trim(u), Fence) {
      ContainsTrim(u, Fence);
    }
  }

  /** Stripping leaves a text alone exactly when it has no backtick triple and no surrounding whitespace. */
  lemma StripFencesFixedIff(text: string)
    ensures StripFences(text) == text <==> !Contains(text, Fence) && IsTrimmed(text)
  {
    StripFencesRemovesFences(text);
    var _, _ := TrimIsSlice(RemoveAll(RemoveAll(text, JsonFence), Fence));
    if !Contains(text, Fence) && IsTrimmed(text) {
      assert JsonFence == Fence + "json";
      if Contains(text, JsonFence) {
        ContainsLonger(text, Fence, "json");
      }
      RemoveAllAbsent(text, JsonFence);
      RemoveAllAbsent(text, Fence);
      TrimFixedIff(text);
    }
  }

  /** Stripping twice is stripping once. */
  lemma StripFencesIdempotent(text: string)
    ensures StripFences(StripFences(text)) == StripFences(text)
  {
    var t := StripFences(text);
    StripFencesRemovesFences(text);
    var _, _ := TrimIsSlice(RemoveAll(RemoveAll(text, JsonFence), Fence));
    StripFencesFixedIff(t);
  }

  /** A reply wrapped as "```json" + body + "```" strips to the trimmed body when the body has no backtick. */
  lemma StripFencedReply(body: string)
    requires '`' !in body
    ensures StripFences(JsonFence + body + Fence) == Trim(body)
  {
    var s := JsonFence + body + Fence;
    assert StartsWith(s, JsonFence);
    assert s[|JsonFence|..] == body + Fence;
    RemoveAllKeepsPrefix(body, Fence, JsonFence);
    assert RemoveAll(Fence, JsonFence) == Fence;
    RemoveAllKeepsPrefix(body, Fence, Fence);
    assert RemoveAll(Fence, Fence) == [];
    assert body + [] == body;
  }

  // ===========================================================================
  // The records the two generation calls are asked to produce
  // ===========================================================================

  datatype Entities = Entities(datePhrase: Option<string>, timePhrase: Option<string>, department: Option<string>)

  /**
   * `entities_confidence` as the reply gives it: absent, JSON `null`, or a number.
   * The two absent cases are kept apart because `<` converts them differently.
   */
  datatype Confidence = Absent | Null | Number(value: real)

  /** First reply: `{entities: {...}, entities_confidence}`. */
  datatype Extraction = Extraction(entities: Option<Entities>, entitiesConfidence: Confidence)

  datatype Normalized = Normalized(date: Option<string>, time: Option<string>, tz: Option<string>)

  datatype FinalAppointment = FinalAppointment(
    department: Option<string>, date: Option<string>, time: Option<string>, tz: Option<string>)

  /** Second reply: `{normalized, normalization_confidence, appointment, status}`. */
  datatype Finalization = Finalization(
    normalized: Option<Normalized>, normalizationConfidence: Option<real>,
    appointment: Option<FinalAppointment>, status: Option<string>)

  // ===========================================================================
  // One generation call
  // ===========================================================================

  /** What a prompt is built from (the current date it also carries is not modelled). */
  datatype Prompt = ExtractionPrompt(rawText: string) | NormalizationPrompt(entities: Entities)

  datatype GenRequest = GenRequest(model: string, prompt: Prompt)

  /**
   * The HTTP exchange either fails (network error, error status) or yields a
   * body; `text` is `candidates[0].content.parts[0].text`, absent when any
   * link of that chain is missing.
   */
  datatype GenReply = GenFailed | GenOk(text: Option<string>)

  /**
   * The outcome of `callGemini`: None stands for the exception it raises.
   * A failed exchange and an absent or empty text fail; otherwise the text is
   * de-fenced and handed to the parser.
   */
  function CallGemini<R>(reply: GenReply, parse: string -> Option<R>): (r: Option<R>)
    ensures reply.GenFailed? ==> r.None?
    ensures reply.GenOk? && !IsTruthy(reply.text) ==> r.None?
    ensures reply.GenOk? && IsTruthy(reply.text) ==> r == parse(StripFences(reply.text.value))
  {
    match reply
    case GenFailed => None
    case GenOk(text) =>
      if !IsTruthy(text) then None else parse(StripFences(text.value))
  }

  // ===========================================================================
  // The pipeline
  // ===========================================================================

  const NeedsClarification: string := "needs_clarification"
  const AmbiguousMessage: string := "Ambiguous date/time or department."
  const ParseErrorMessage: string := "An error occurred during parsing."
  const ConfidenceThreshold: real := 0.6

  datatype Step1 = Step1(rawText: string, confidence: real)
  datatype Step3 = Step3(normalized: Option<Normalized>, normalizationConfidence: Option<real>)
  datatype Step4 = Step4(appointment: Option<FinalAppointment>, status: Option<string>)

  /**
   * The object the pipeline resolves to, field by field as a JavaScript object:
   * either `{status, message}` or `{step1_extraction, step2_entities,
   * step3_normalization, step4_final}`.
   */
  datatype PipelineResult = PipelineResult(
    status: Option<string>, message: Option<string>,
    step1: Option<Step1>, step2: Option<Extraction>, step3: Option<Step3>, step4: Option<Step4>)

  function Clarification(message: string): PipelineResult {
    PipelineResult(Some(NeedsClarification), Some(message), None, None, None, None)
  }

  /** The result of a run that got through both calls. */
  function FullResponse(rawText: string, x: Extraction, f: Finalization): PipelineResult {
    PipelineResult(None, None,
      Some(Step1(rawText, 1.0)),
      Some(x),
      Some(Step3(f.normalized, f.normalizationConfidence)),
      Some(Step4(f.appointment, f.status)))
  }

  /** The external collaborators of one run. */
  datatype Services = Services(
    listing: ListReply,
    backend: GenRequest -> GenReply,
    parseExtraction: string -> Option<Extraction>,
    parseFinalization: string -> Option<Finalization>)

  /** The resolved result, and the generation requests issued, in order. */
  datatype Run = Run(result: PipelineResult, requests: seq<GenRequest>)

  /** JavaScript's `ToNumber` on the field: `undefined` becomes NaN (None), `null` becomes +0. */
  function ToNumber(c: Confidence): Option<real> {
    match c
    case Absent => None
    case Null => Some(0.0)
    case Number(v) => Some(v)
  }

  /** `entities_confidence < 0.6`, where a comparison with NaN is false. */
  predicate LowConfidence(x: Extraction)
    ensures LowConfidence(x) <==>
              x.entitiesConfidence.Null? ||
              (x.entitiesConfidence.Number? && x.entitiesConfidence.value < ConfidenceThreshold)
  {
    var n := ToNumber(x.entitiesConfidence);
    n.Some? && n.value < ConfidenceThreshold
  }

  /** The guardrail lets the run go on to the second call. */
  predicate PassesGuardrail(x: Extraction) {
    !LowConfidence(x) && x.entities.Some? && IsTruthy(x.entities.value.datePhrase)
  }

  function FirstRequest(rawText: string, svc: Services): GenRequest {
    GenRequest(SelectModel(svc.listing), ExtractionPrompt(rawText))
  }

  function SecondRequest(svc: Services, e: Entities): GenRequest {
    GenRequest(SelectModel(svc.listing), NormalizationPrompt(e))
  }

  /** The first call succeeds exactly when the reply text is non-empty and its de-fenced parse succeeds, yielding that parse. */
  function FirstCall(rawText: string, svc: Services): (r: Option<Extraction>)
    ensures var reply := svc.backend(FirstRequest(rawText, svc));
      r.Some? ==> reply.GenOk? && IsTruthy(reply.text) && r == svc.parseExtraction(StripFences(reply.text.value))
    ensures var reply := svc.backend(FirstRequest(rawText, svc));
      reply.GenOk? && IsTruthy(reply.text) ==> r == svc.parseExtraction(StripFences(reply.text.value))
  {
    CallGemini(svc.backend(FirstRequest(rawText, svc)), svc.parseExtraction)
  }

  /** The second call succeeds exactly when the reply text is non-empty and its de-fenced parse succeeds, yielding that parse. */
  function SecondCall(svc: Services, e: Entities): (r: Option<Finalization>)
    ensures var reply := svc.backend(SecondRequest(svc, e));
      r.Some? ==> reply.GenOk? && IsTruthy(reply.text) && r == svc.parseFinalization(StripFences(reply.text.value))
    ensures var reply := svc.backend(SecondRequest(svc, e));
      reply.GenOk? && IsTruthy(reply.text) ==> r == svc.parseFinalization(StripFences(reply.text.value))
  {
    CallGemini(svc.backend(SecondRequest(svc, e)), svc.parseFinalization)
  }

  /** One of the two clarification objects the pipeline can resolve to. */
  predicate IsClarification(r: PipelineResult) {
    r == Clarification(AmbiguousMessage) || r == Clarification(ParseErrorMessage)
  }

  /** The four-step object: no top-level status or message, every step present. */
  predicate IsFullResponse(r: PipelineResult, rawText: string) {
    r.status.None? && r.message.None? &&
    r.step1 == Some(Step1(rawText, 1.0)) && r.step2.Some? && r.step3.Some? && r.step4.Some?
  }

  /**
   * `parseAppointmentPipeline`. The guardrail `conf < 0.6 || !entities.date_phrase`
   * is evaluated left to right: a low confidence trips it before `entities` is
   * read, an absent confidence compares as false, and reading `date_phrase` of
   * an absent `entities` raises, which the catch-all turns into the parse error.
   */
  function Pipeline(rawText: string, svc: Services): (run: Run)
    ensures 1 <= |run.requests| <= 2
    ensures run.requests[0] == FirstRequest(rawText, svc)
    ensures forall k :: 0 <= k < |run.requests| ==> run.requests[k].model == SelectModel(svc.listing)
    ensures run.result.status.Some? ==> IsClarification(run.result)
    ensures run.result.status.None? ==> IsFullResponse(run.result, rawText)
  {
    var first := FirstRequest(rawText, svc);
    match FirstCall(rawText, svc)
    case None => Run(Clarification(ParseErrorMessage), [first])
    case Some(x) =>
      if LowConfidence(x) then Run(Clarification(AmbiguousMessage), [first])
      else if x.entities.None? then Run(Clarification(ParseErrorMessage), [first])
      else if !IsTruthy(x.entities.value.datePhrase) then Run(Clarification(AmbiguousMessage), [first])
      else
        var second := SecondRequest(svc, x.entities.value);
        match SecondCall(svc, x.entities.value)
        case None => Run(Clarification(ParseErrorMessage), [first, second])
        case Some(f) => Run(FullResponse(rawText, x, f), [first, second])
  }

  // ===========================================================================
  // Properties of the pipeline
  // ===========================================================================

  /** The second generation call is issued exactly when the first reply parsed and passed the guardrail. */
  lemma SecondCallIff(rawText: string, svc: Services)
    ensures |Pipeline(rawText, svc).requests| == 2
            <==> FirstCall(rawText, svc).Some? && PassesGuardrail(FirstCall(rawText, svc).value)
    ensures |Pipeline(rawText, svc).requests| == 2
            ==> Pipeline(rawText, svc).requests[1]
                == SecondRequest(svc, FirstCall(rawText, svc).value.entities.value)
  {
  }

  /** A guardrail trip resolves to the ambiguity clarification after exactly one call. */
  lemma GuardrailTrips(rawText: string, svc: Services, x: Extraction)
    requires FirstCall(rawText, svc) == Some(x)
    requires LowConfidence(x) || (x.entities.Some? && !IsTruthy(x.entities.value.datePhrase))
    ensures Pipeline(rawText, svc) == Run(Clarification(AmbiguousMessage), [FirstRequest(rawText, svc)])
  {
  }

  /** A confidence below the threshold trips the guardrail even when `entities` is absent. */
  lemma LowConfidenceSkipsEntities(rawText: string, svc: Services, c: real)
    requires FirstCall(rawText, svc) == Some(Extraction(None, Number(c)))
    requires c < 0.6
    ensures Pipeline(rawText, svc).result == Clarification(AmbiguousMessage)
  {
  }

  /** Any confidence of at least 0.6, in particular exactly 0.6, passes; 0.599999 does not. */
  lemma ConfidenceBoundary(e: Entities)
    requires IsTruthy(e.datePhrase)
    ensures PassesGuardrail(Extraction(Some(e), Number(0.6)))
    ensures !PassesGuardrail(Extraction(Some(e), Number(0.599999)))
    ensures forall c: real :: c >= 0.6 ==> PassesGuardrail(Extraction(Some(e), Number(c)))
  {
  }

  /** An absent confidence does not trip the guardrail (`undefined < 0.6` is false). */
  lemma AbsentConfidencePasses(e: Entities)
    requires IsTruthy(e.datePhrase)
    ensures PassesGuardrail(Extraction(Some(e), Absent))
  {
  }

  /** A JSON `null` confidence counts as 0 and trips the guardrail, whatever `entities` holds. */
  lemma NullConfidenceTrips(rawText: string, svc: Services, e: Option<Entities>)
    requires FirstCall(rawText, svc) == Some(Extraction(e, Null))
    ensures Pipeline(rawText, svc) == Run(Clarification(AmbiguousMessage), [FirstRequest(rawText, svc)])
  {
  }

  /** Without a low confidence, an absent `entities` object ends in the parse error after one call. */
  lemma AbsentEntitiesIsParseError(rawText: string, svc: Services, x: Extraction)
    requires FirstCall(rawText, svc) == Some(x)
    requires !LowConfidence(x) && x.entities.None?
    ensures Pipeline(rawText, svc) == Run(Clarification(ParseErrorMessage), [FirstRequest(rawText, svc)])
  {
  }

  /** An empty or absent reply text fails the first call, and the run ends in the parse error. */
  lemma EmptyReplyIsParseError(rawText: string, svc: Services)
    requires svc.backend(FirstRequest(rawText, svc)) in {GenOk(None), GenOk(Some(""))}
    ensures FirstCall(rawText, svc).None?
    ensures Pipeline(rawText, svc) == Run(Clarification(ParseErrorMessage), [FirstRequest(rawText, svc)])
  {
  }

  /** Any failed call ends in the parse error: the pipeline never raises. */
  lemma FailedCallIsParseError(rawText: string, svc: Services)
    requires FirstCall(rawText, svc).None? ||
             (PassesGuardrail(FirstCall(rawText, svc).value) &&
              SecondCall(svc, FirstCall(rawText, svc).value.entities.value).None?)
    ensures Pipeline(rawText, svc).result == Clarification(ParseErrorMessage)
  {
  }

  /**
   * The success path: two calls, step 1 wraps the raw text with confidence 1.0,
   * step 2 is the first reply as parsed, steps 3 and 4 copy the second reply's
   * fields, and the result carries no top-level status.
   */
  lemma SuccessPath(rawText: string, svc: Services, x: Extraction, f: Finalization)
    requires FirstCall(rawText, svc) == Some(x) && PassesGuardrail(x)
    requires SecondCall(svc, x.entities.value) == Some(f)
    ensures Pipeline(rawText, svc).requests == [FirstRequest(rawText, svc), SecondRequest(svc, x.entities.value)]
    ensures var r := Pipeline(rawText, svc).result;
      r.status.None? && r.message.None? &&
      r.step1 == Some(Step1(rawText, 1.0)) &&
      r.step2 == Some(x) &&
      r.step3 == Some(Step3(f.normalized, f.normalizationConfidence)) &&
      r.step4 == Some(Step4(f.appointment, f.status))
  {
  }

  /** The result has no top-level status exactly when both calls succeeded and the guardrail passed. */
  lemma NoStatusIff(rawText: string, svc: Services)
    ensures Pipeline(rawText, svc).result.status.None?
            <==> FirstCall(rawText, svc).Some? && PassesGuardrail(FirstCall(rawText, svc).value) &&
                 SecondCall(svc, FirstCall(rawText, svc).value.entities.value).Some?
  {
  }
}
