/**
 * src/llm.py: cleaning of the generative model's reply and the bounded
 * retry loop of call_llm_json, with the model as an oracle and JSON
 * decoding plus schema validation as a decoder passed in.
 */
module Llm {
  import opened Wrappers
  import opened Text
  import opened JsonValue
  import opened Schemas

  /** call_llm_json retries twice after the first attempt. */
  const MaxRetries: nat := 2

  const JsonFence: string := "```json"
  const Fence: string := "```"

  /** What one call to the model gives: a reply text, or an exception raised
      while asking for it or reading it. */
  datatype Reply = Raised | Replied(text: string)

  /** The reply text after the defensive clean-up: trimmed, a leading
      "```json" dropped, a trailing "```" dropped, trimmed again. */
  function Cleaned(response: string): (text: string)
    ensures IsTrimmed(text)
    ensures |text| <= |response|
  {
    var t := Strip(response);
    var t' := if StartsWith(t, JsonFence) then t[|JsonFence|..] else t;
    var t'' := if EndsWith(t', Fence) then t'[..|t'| - |Fence|] else t';
    Strip(t'')
  }

  /** A reply wrapped in a "```json" fence cleans to the trimmed content. */
  lemma FenceUnwrapped(s: string)
    ensures Cleaned(JsonFence + s + Fence) == Strip(s)
  {
    var w := JsonFence + s + Fence;
    assert w[0] == '`' && w[|w| - 1] == '`';
    StripTrimmed(w);
    assert w[..|JsonFence|] == JsonFence;
    var t' := w[|JsonFence|..];
    assert t' == s + Fence;
    assert t'[|t'| - |Fence|..] == Fence;
    assert t'[..|t'| - |Fence|] == s;
  }

  /** A reply between two bare fences is already trimmed, does not open with
      "```json" and closes with "```". */
  lemma BareFenceShape(s: string)
    requires !StartsWith(s, "json")
    ensures Strip(Fence + s + Fence) == Fence + s + Fence
    ensures !StartsWith(Fence + s + Fence, JsonFence)
    ensures EndsWith(Fence + s + Fence, Fence)
    ensures (Fence + s + Fence)[..|Fence + s + Fence| - |Fence|] == Fence + s
  {
    var w := Fence + s + Fence;
    assert w[0] == '`' && w[|w| - 1] == '`';
    StripTrimmed(w);
    if |s| >= 4 {
      assert w[3..7] == s[..4];
      assert w[..7] != JsonFence;
    } else {
      assert w[3 + |s|] == '`';
      assert JsonFence[3 + |s|] != '`';
      assert |w| < 7 || w[..7] != JsonFence;
    }
    assert w[|w| - |Fence|..] == Fence;
  }

  /** Trimming text that opens with a fence keeps the fence. */
  lemma FenceKept(s: string)
    ensures StartsWith(Strip(Fence + s), Fence)
  {
    var u := Fence + s;
    assert LeadingSpaces(u) == 0 by {
      assert !IsSpace(u[0]);
    }
    assert !IsSpace(u[2]);
    assert Strip(u)[..3] == u[..3] == Fence;
  }

  /** Only the lower-case "```json" opener is removed: a bare "```" opener
      survives cleaning, while the closing "```" is removed. */
  lemma BareFenceSurvives(s: string)
    requires !StartsWith(s, "json")
    ensures Cleaned(Fence + s + Fence) == Strip(Fence + s)
    ensures StartsWith(Cleaned(Fence + s + Fence), Fence)
  {
    BareFenceShape(s);
    FenceKept(s);
  }

  /** A reply that neither opens with "```json" nor closes with "```" (once
      trimmed) is only trimmed. */
  lemma UnfencedOnlyTrimmed(response: string)
    requires !StartsWith(Strip(response), JsonFence)
    requires !EndsWith(Strip(response), Fence)
    ensures Cleaned(response) == Strip(response)
  {
    StripTrimmed(Strip(response));
  }

  /** The outcome of one attempt: the decoded, validated record, or None when
      the call raised or the cleaned text did not decode and validate. */
  function AttemptOutcome<R>(reply: Reply, decode: string -> Option<R>): (r: Option<R>)
    ensures r.Some? ==> reply.Replied?
    ensures (reply.Replied? && IsTrimmed(reply.text) && !StartsWith(reply.text, JsonFence)
             && !EndsWith(reply.text, Fence)) ==> r == decode(reply.text)
  {
    match reply
    case Raised => None
    case Replied(t) =>
      if IsTrimmed(t) && !StartsWith(t, JsonFence) && !EndsWith(t, Fence) then
        StripTrimmed(t);
        UnfencedOnlyTrimmed(t);
        decode(Cleaned(t))
      else
        decode(Cleaned(t))
  }

  /** Wrapping an unfenced reply in a "```json" fence does not change what the attempt yields. */
  lemma FencingIsTransparent<R>(s: string, decode: string -> Option<R>)
    requires !StartsWith(Strip(s), JsonFence)
    requires !EndsWith(Strip(s), Fence)
    ensures AttemptOutcome(Replied(JsonFence + s + Fence), decode) == AttemptOutcome(Replied(s), decode)
  {
    FenceUnwrapped(s);
    UnfencedOnlyTrimmed(s);
  }

  /** One attempt: clean the reply's text and decode it. */
  method TryReply<R>(reply: Reply, decode: string -> Option<R>) returns (outcome: Option<R>)
    ensures outcome == AttemptOutcome(reply, decode)
  {
    outcome := None;
    if reply.Replied? {
      // the clean-up, reassigning the text step by step
      var text := Strip(reply.text);
      if StartsWith(text, JsonFence) {
        text := text[|JsonFence|..];
      }
      if EndsWith(text, Fence) {
        text := text[..|text| - |Fence|];
      }
      text := Strip(text);
      assert text == Cleaned(reply.text);
      outcome := decode(text);
    }
  }

  /** The outcome of every attempt, in order. */
  function Attempts<R>(model: nat -> Reply, decode: string -> Option<R>): nat -> Option<R> {
    (i: nat) => AttemptOutcome(model(i), decode)
  }

  /**
   * The retry loop of call_llm_json from attempt `attempt` on, given the
   * outcome of each attempt: the result and the number of model calls made
   * in all. The first attempt that decodes ends it; a failed attempt before
   * the last is followed by another; the last failed attempt gives None.
   * Past the last attempt stands the return after the loop, which the loop
   * never reaches.
   */
  function Retry<R>(tries: nat -> Option<R>, attempt: nat): (r: (Option<R>, nat))
    ensures attempt <= r.1
    ensures r.0.Some? ==> attempt < r.1 && r.0 == tries(r.1 - 1)
    decreases MaxRetries + 1 - attempt
  {
    if attempt > MaxRetries then (None, attempt)
    else if tries(attempt).Some? then (tries(attempt), attempt + 1)
    else if attempt < MaxRetries then Retry(tries, attempt + 1)
    else (None, attempt + 1)
  }

  /** What call_llm_json returns, and how many model calls it makes. */
  function LlmJson<R>(configured: bool, model: nat -> Reply, decode: string -> Option<R>): (r: (Option<R>, nat))
    ensures !configured ==> r == (None, 0)
    ensures configured ==> 1 <= r.1 <= MaxRetries + 1
    ensures r.0.Some? ==> r.0 == AttemptOutcome(model(r.1 - 1), decode)
  {
    if configured then
      RetryFacts(Attempts(model, decode), 0);
      Retry(Attempts(model, decode), 0)
    else (None, 0)
  }

  /**
   * call_llm_json. `configured` is whether an API key was found; `model(i)` is
   * what the model gives on attempt i; `decode` stands for json.loads
   * followed by building the schema class. Returns the validated record, or
   * None, and the number of model calls made.
   */
  method CallLlmJson<R>(configured: bool, model: nat -> Reply, decode: string -> Option<R>)
    returns (result: Option<R>, calls: nat)
    ensures (result, calls) == LlmJson(configured, model, decode)
  {
    if !configured {
      return None, 0;
    }
    calls := 0;
    for attempt := 0 to MaxRetries + 1
      invariant calls == attempt
      invariant Retry(Attempts(model, decode), attempt) == Retry(Attempts(model, decode), 0)
    {
      var reply := model(attempt);
      calls := calls + 1;
      var outcome := TryReply(reply, decode);
      if outcome.Some? {
        return outcome, calls;
      }
      if attempt < MaxRetries {
        continue;
      } else {
        return None, calls;
      }
    }
    return None, calls;
  }

  /** The loop from attempt `attempt` on: what it promises about the calls it makes. */
  lemma {:induction false} RetryFacts<R>(tries: nat -> Option<R>, attempt: nat)
    requires attempt <= MaxRetries
    ensures attempt + 1 <= Retry(tries, attempt).1 <= MaxRetries + 1
    ensures forall i :: attempt <= i < Retry(tries, attempt).1 - 1 ==> tries(i).None?
    ensures Retry(tries, attempt).0 == tries(Retry(tries, attempt).1 - 1)
    ensures Retry(tries, attempt).0.None? ==> Retry(tries, attempt).1 == MaxRetries + 1
    decreases MaxRetries - attempt
  {
    if tries(attempt).None? && attempt < MaxRetries {
      RetryFacts(tries, attempt + 1);
    }
  }

  /**
   * No API key: None, and the model is never called. Otherwise one to three
   * calls, one after another; every attempt before the last failed; the
   * result is the last attempt's outcome, so the first success is returned
   * at once; None comes only after all three attempts failed.
   */
  lemma LlmJsonFacts<R>(configured: bool, model: nat -> Reply, decode: string -> Option<R>)
    ensures var (result, calls) := LlmJson(configured, model, decode);
            && (!configured ==> result == None && calls == 0)
            && (configured ==> 1 <= calls <= MaxRetries + 1)
            && (forall i :: 0 <= i < calls - 1 ==> AttemptOutcome(model(i), decode).None?)
            && (calls > 0 ==> result == AttemptOutcome(model(calls - 1), decode))
            && (configured && result.None? ==> calls == MaxRetries + 1)
  {
    if configured {
      var tries := Attempts(model, decode);
      RetryFacts(tries, 0);
      forall i | 0 <= i
        ensures tries(i) == AttemptOutcome(model(i), decode)
      {
      }
    }
  }

  /** json.loads followed by a schema validator. */
  function DecodeAs<R>(parseJson: string -> Option<Json>, validate: Json -> Option<R>, text: string): Option<R> {
    match parseJson(text)
    case None => None
    case Some(j) => validate(j)
  }

  /** The decoder handed to call_llm_json by each of the five prompts. */
  function Decoder<R>(parseJson: string -> Option<Json>, validate: Json -> Option<R>): string -> Option<R> {
    text => DecodeAs(parseJson, validate, text)
  }

  /** An attempt succeeds only on a reply whose cleaned text parses and validates. */
  lemma DecodedAttempt<R>(reply: Reply, parseJson: string -> Option<Json>, validate: Json -> Option<R>)
    requires AttemptOutcome(reply, Decoder(parseJson, validate)).Some?
    ensures reply.Replied?
    ensures parseJson(Cleaned(reply.text)).Some?
    ensures validate(parseJson(Cleaned(reply.text)).value) == AttemptOutcome(reply, Decoder(parseJson, validate))
  {
  }

  method ParseJobDescription(configured: bool, model: nat -> Reply, parseJson: string -> Option<Json>)
    returns (result: Option<JobParsing>, calls: nat)
    ensures calls <= MaxRetries + 1 && (!configured ==> calls == 0 && result.None?)
    ensures result.Some? ==>
              && 1 <= calls && model(calls - 1).Replied?
              && var j := parseJson(Cleaned(model(calls - 1).text));
                 j.Some? && ValidateJobParsing(j.value) == result
    ensures configured && result.None? ==> calls == MaxRetries + 1
    ensures (result, calls) == LlmJson(configured, model, Decoder(parseJson, ValidateJobParsing))
  {
    result, calls := CallLlmJson(configured, model, Decoder(parseJson, ValidateJobParsing));
    LlmJsonFacts(configured, model, Decoder(parseJson, ValidateJobParsing));
    if result.Some? {
      DecodedAttempt(model(calls - 1), parseJson, ValidateJobParsing);
    }
  }

  method ParseResume(configured: bool, model: nat -> Reply, parseJson: string -> Option<Json>)
    returns (result: Option<CandidateParsing>, calls: nat)
    ensures calls <= MaxRetries + 1 && (!configured ==> calls == 0 && result.None?)
    ensures result.Some? ==>
              && 1 <= calls && model(calls - 1).Replied?
              && var j := parseJson(Cleaned(model(calls - 1).text));
                 j.Some? && ValidateCandidateParsing(j.value) == result
    ensures configured && result.None? ==> calls == MaxRetries + 1
    ensures (result, calls) == LlmJson(configured, model, Decoder(parseJson, ValidateCandidateParsing))
  {
    result, calls := CallLlmJson(configured, model, Decoder(parseJson, ValidateCandidateParsing));
    LlmJsonFacts(configured, model, Decoder(parseJson, ValidateCandidateParsing));
    if result.Some? {
      DecodedAttempt(model(calls - 1), parseJson, ValidateCandidateParsing);
    }
  }

  method EvaluateCandidate(configured: bool, model: nat -> Reply, parseJson: string -> Option<Json>)
    returns (result: Option<EvaluationResult>, calls: nat)
    ensures calls <= MaxRetries + 1 && (!configured ==> calls == 0 && result.None?)
    ensures result.Some? ==>
              && 1 <= calls && model(calls - 1).Replied?
              && var j := parseJson(Cleaned(model(calls - 1).text));
                 j.Some? && ValidateEvaluationResult(j.value) == result
    ensures configured && result.None? ==> calls == MaxRetries + 1
    ensures (result, calls) == LlmJson(configured, model, Decoder(parseJson, ValidateEvaluationResult))
  {
    result, calls := CallLlmJson(configured, model, Decoder(parseJson, ValidateEvaluationResult));
    LlmJsonFacts(configured, model, Decoder(parseJson, ValidateEvaluationResult));
    if result.Some? {
      DecodedAttempt(model(calls - 1), parseJson, ValidateEvaluationResult);
    }
  }

  method GenerateOutreach(configured: bool, model: nat -> Reply, parseJson: string -> Option<Json>)
    returns (result: Option<OutreachMessage>, calls: nat)
    ensures calls <= MaxRetries + 1 && (!configured ==> calls == 0 && result.None?)
    ensures result.Some? ==>
              && 1 <= calls && model(calls - 1).Replied?
              && var j := parseJson(Cleaned(model(calls - 1).text));
                 j.Some? && ValidateOutreachMessage(j.value) == result
    ensures configured && result.None? ==> calls == MaxRetries + 1
    ensures (result, calls) == LlmJson(configured, model, Decoder(parseJson, ValidateOutreachMessage))
  {
    result, calls := CallLlmJson(configured, model, Decoder(parseJson, ValidateOutreachMessage));
    LlmJsonFacts(configured, model, Decoder(parseJson, ValidateOutreachMessage));
    if result.Some? {
      DecodedAttempt(model(calls - 1), parseJson, ValidateOutreachMessage);
    }
  }

  method SummarizeScreening(configured: bool, model: nat -> Reply, parseJson: string -> Option<Json>)
    returns (result: Option<ScreeningResult>, calls: nat)
    ensures calls <= MaxRetries + 1 && (!configured ==> calls == 0 && result.None?)
    ensures result.Some? ==>
              && 1 <= calls && model(calls - 1).Replied?
              && var j := parseJson(Cleaned(model(calls - 1).text));
                 j.Some? && ValidateScreeningResult(j.value) == result
    ensures configured && result.None? ==> calls == MaxRetries + 1
    ensures (result, calls) == LlmJson(configured, model, Decoder(parseJson, ValidateScreeningResult))
  {
    result, calls := CallLlmJson(configured, model, Decoder(parseJson, ValidateScreeningResult));
    LlmJsonFacts(configured, model, Decoder(parseJson, ValidateScreeningResult));
    if result.Some? {
      DecodedAttempt(model(calls - 1), parseJson, ValidateScreeningResult);
    }
  }

  /** How much of the résumé evaluate_candidate puts in its prompt. */
  const ResumeContextLimit: nat := 5000

  /** The résumé text embedded in the evaluation prompt: its first 5000 characters. */
  function ResumeExcerpt(resumeText: string): (excerpt: string)
    ensures |excerpt| == if |resumeText| < ResumeContextLimit then |resumeText| else ResumeContextLimit
    ensures excerpt == resumeText[..|excerpt|]
  {
    if |resumeText| <= ResumeContextLimit then resumeText else resumeText[..ResumeContextLimit]
  }
}
