# recruitment-agent: a Dafny model of its core

recruitment-agent is a Streamlit recruiting assistant. Supabase stores the
jobs, candidates and applications, and Gemini extracts structured records
from job descriptions and résumés. This project models the parts of it that
have logic of their own:

- **LLM reply handling** (`llm.dfy`). `call_llm_json` makes at most three
  attempts. On each one it strips a Markdown code fence from the reply,
  decodes the JSON, and validates it against a schema. It returns the first
  record that validates. Gemini is an oracle `model: nat -> Reply`: attempt
  i either replies with some text or raises. Whether an API key was found is
  a boolean. `json.loads` is an abstract partial function
  `string -> Option<Json>`.
- **Record schemas** (`schemas.dfy`). Every pydantic model of
  `src/schemas.py` is a datatype with a validator over a JSON value
  (`json.dfy`). Each validator also has an encoder, and the two are proved
  to round-trip.
- **Upload text extraction** (`utils.dfy`). The case-insensitive suffix
  dispatch picks the reader. The page or paragraph loops build the text,
  which is then trimmed. Failures come back as error strings. The PDF
  reader, the Word reader and the UTF-8 decoder are abstract functions that
  either return a value or raise.
- **Dashboard aggregation and application inserts** (`db.dfy`).
  `get_dashboard_stats` works over rows the queries have already fetched:
  the open-job count, the stage funnel and the five most recent
  applications. It stops at the first exception. The two application
  inserts classify a "duplicate key" error.
- **The create-job form** (`jobs_page.dfy`). Comma-separated skills and
  one-per-line responsibilities become clean lists, and the join that
  pre-fills the form round-trips with them. The title check and the
  fallback for the interview-stages JSON are modelled too.

Supporting modules:

- `text.dfy` holds the Python string operations the code relies on:
  - `str.strip` over Python's whitespace set;
  - `split` on one character, and `join`;
  - `startswith`, `endswith` and substring `in`;
  - `lower` on ASCII letters.
- `wrappers.dfy` holds `Option` and `Result`.
- `constants.dfy` holds `STAGES` and `DEFAULT_INTERVIEW_STAGES`.

A reader might expect otherwise on four points; the model follows the code:

- The `try` in `call_llm_json` also wraps `generate_content`, so an
  exception from the model call is retried like a parse failure.
- Only the lowercase opening fence "```json" is removed. A bare "```" opener
  is kept.
- Score fields are unbounded integers, because the 0–100 range appears only
  in field descriptions.
- Nothing orders `comp_range_min` against `comp_range_max`.

## Model

| member | source | states |
|---|---|---|
| Text.Strip | src/utils.py:40 | `str.strip()`: the result has no leading or trailing whitespace and is no longer than the input |
| Text.StripShape | src/utils.py:40 | any text is whitespace, then its stripped form, then whitespace |
| Text.StripPadded | src/llm.py:73 | trimming text padded on both sides with whitespace gives back the trimmed text itself |
| Text.StripAppendSpace | src/utils.py:20 | whitespace appended to a text (the newline after the last page) does not change its trimmed form |
| Text.StripPrependSpace | pages/2_Jobs.py:118 | whitespace put in front of a text (the space after a comma) does not change its trimmed form |
| Text.LowerAscii | src/utils.py:14 | lower-casing keeps the length and maps each character on its own |
| Text.LowerAsciiAppend | src/utils.py:14 | lower-casing a concatenation lower-cases each part, so a name's suffix lower-cases on its own |
| Text.Split | pages/2_Jobs.py:118 | `str.split(sep)`: at least one piece, no piece holds the separator, and joining the pieces with it gives the input back |
| Text.SplitJoin | pages/2_Jobs.py:118-120 | splitting a join of separator-free pieces gives the pieces back |
| Llm.Cleaned | src/llm.py:67-73 | the cleaned reply is trimmed and never longer than the reply |
| Llm.FenceUnwrapped | src/llm.py:68-73 | cleaning "```json" + s + "```" gives exactly trim(s) |
| Llm.BareFenceShape | src/llm.py:68-72 | a reply between two bare fences is already trimmed, lacks the "```json" opener and loses exactly its closing fence |
| Llm.FenceKept | src/llm.py:73 | trimming text that opens with "```" keeps the fence |
| Llm.BareFenceSurvives | src/llm.py:69-72 | a bare "```" opener survives cleaning and only the closing fence is removed |
| Llm.UnfencedOnlyTrimmed | src/llm.py:68-73 | a reply without the "```json" opener or a closing fence is only trimmed |
| Llm.FencingIsTransparent | src/llm.py:68-77 | wrapping an unfenced reply in a json fence does not change what the attempt decodes to |
| Llm.AttemptOutcome | src/llm.py:62-77 | an attempt yields a record only when the model replied; a reply that is already trimmed and unfenced is decoded as it stands |
| Llm.TryReply | src/llm.py:62-77 | one attempt yields the decoded, validated cleaned text, and nothing when the call raises |
| Llm.CallLlmJson | src/llm.py:57-87 | the attempt loop returns the result and the number of model calls of the reference retry function, `LlmJson` |
| Llm.Retry | src/llm.py:57-87 | the retry loop never goes back to an earlier attempt, and a result it returns is the outcome of the last attempt it made |
| Llm.LlmJson | src/llm.py:57-87 | no key: None and no model call; with a key, 1 to 3 calls, and a result is the last attempt's outcome |
| Llm.RetryFacts | src/llm.py:57-87 | retrying from attempt k makes between 1 and 3 − k more calls; every attempt before the last one failed; the result is the last attempt's outcome; no result only after the third attempt |
| Llm.LlmJsonFacts | src/llm.py:35-87 | no key: None and no model call. Otherwise 1 to 3 calls; every attempt before the last failed; the result is the last attempt's outcome; None only after all 3 attempts failed |
| Llm.ParseJobDescription | src/llm.py:91-99 | the result and call count are exactly `call_llm_json`'s (`LlmJson`) with the job-parse validator: at most 3 calls, none without a key, all 3 when nothing validates; a result is the last reply's cleaned text parsed and validated as a job parse |
| Llm.ParseResume | src/llm.py:101-109 | as above: exactly `call_llm_json`'s result and call count, validated as a candidate parse |
| Llm.EvaluateCandidate | src/llm.py:111-129 | as above: exactly `call_llm_json`'s result and call count, validated as an evaluation result |
| Llm.GenerateOutreach | src/llm.py:131-141 | as above: exactly `call_llm_json`'s result and call count, validated as an outreach message |
| Llm.SummarizeScreening | src/llm.py:143-151 | as above: exactly `call_llm_json`'s result and call count, validated as a screening result |
| Llm.ResumeExcerpt | src/llm.py:122 | the résumé in the evaluation prompt is its first min(n, 5000) characters |
| Schemas.ParseRole | src/schemas.py:6 | a role validates exactly when it is "admin", "recruiter" or "manager" |
| Schemas.ValidateUserRole | src/schemas.py:5-6 | a valid user role is an object whose "role" key holds that role's name |
| Schemas.UserRoleRoundTrip | src/schemas.py:5-6 | encoding a user role and validating it gives it back |
| Schemas.UserRoleLiterals | src/schemas.py:6 | an object validates as a user role exactly when its role is one of the three literals; "candidate" is refused |
| Schemas.ValidateJobParsing | src/schemas.py:9-22 | a valid job parse is an object holding all ten keys, each holding its field read with the declared type: the title a string; team, location and employment type a string or null; the compensation ends a number or null; the three lists lists of strings; the stages a list of string maps or null |
| Schemas.JobParsingExactly | src/schemas.py:9-22 | an object validates to a job parse exactly when each of the ten keys holds that record's field with its declared type, so a wrong-typed value in any field is refused |
| Schemas.JobParsingReadsOwnKeys | src/schemas.py:9-22 | keys other than the ten fields do not affect validation |
| Schemas.JobParsingRoundTrip | src/schemas.py:9-22 | encoding a job parse and validating it gives it back |
| Schemas.JobParsingNullability | src/schemas.py:11-20 | a null team validates; a null title or any missing key does not |
| Schemas.JobParsingTeamNullable | src/schemas.py:12 | the encoding of a job parse with its team set to null validates, to the same record without a team |
| Schemas.CompRangeUnordered | src/schemas.py:15-16 | any job parse whose minimum compensation is above its maximum validates |
| Schemas.ParseJobStatus | src/schemas.py:27 | a status validates exactly when it is "open", "closed" or "draft" |
| Schemas.JobColumns | src/schemas.py:25-29 | the columns validate only when id, created_by, jd_text and created_at are strings holding the job's values and the status is one of the literals; columns that hold a job's values validate to that job |
| Schemas.ValidateJob | src/schemas.py:24-29 | a valid job holds all job-parse and column keys, its job-parse part validates on its own, and each column holds its field with its declared type (four strings and the status literal) |
| Schemas.JobExactly | src/schemas.py:24-29 | an object validates to a job exactly when its job-parse keys and its five columns each hold that job's fields with their declared types |
| Schemas.JobFieldsAgree | src/schemas.py:24-29 | a job's encoding holds its job-parse fields and its column fields unchanged |
| Schemas.JobRoundTrip | src/schemas.py:24-29 | encoding a job and validating it gives it back |
| Schemas.JobStatusLiterals | src/schemas.py:27 | an otherwise valid job validates exactly when its status is one of the three literals |
| Schemas.JobWithoutExtrasIsJobParsing | src/schemas.py:24-29 | a valid job with its extra columns removed is a valid job parse with the same content |
| Schemas.JobColumnsRoundTrip | src/schemas.py:25-29 | the columns read back from a job's encoding are the job's |
| Schemas.ValidateCandidateParsing | src/schemas.py:32-41 | a valid candidate parse is an object holding all eight keys, each holding its field read with the declared type: the full name a string; email, phone and location a string or null; links a string map or null; years a number or null; skills and education lists of strings |
| Schemas.CandidateParsingExactly | src/schemas.py:32-41 | an object validates to a candidate parse exactly when each of the eight keys holds that record's field with its declared type |
| Schemas.CandidateParsingReadsOwnKeys | src/schemas.py:32-41 | keys other than the eight fields do not affect validation |
| Schemas.CandidateParsingRoundTrip | src/schemas.py:32-41 | encoding a candidate parse and validating it gives it back |
| Schemas.CandidateParsingNullability | src/schemas.py:34-41 | a null email validates; a null full name or any missing key does not |
| Schemas.CandidateParsingEmailNullable | src/schemas.py:35 | the encoding of a candidate parse with its email set to null validates, to the same record without an email |
| Schemas.CandidateColumns | src/schemas.py:44-47 | the columns validate only when id, resume_text and created_at are strings and resume_file_path a string or null, each holding the candidate's value; columns that hold a candidate's values validate to that candidate |
| Schemas.ValidateCandidate | src/schemas.py:43-47 | a valid candidate holds all keys, its candidate-parse part validates on its own, and each column holds its field with its declared type |
| Schemas.CandidateExactly | src/schemas.py:43-47 | an object validates to a candidate exactly when its candidate-parse keys and its four columns each hold that candidate's fields with their declared types |
| Schemas.CandidateRoundTrip | src/schemas.py:43-47 | encoding a candidate and validating it gives it back |
| Schemas.CandidateColumnsRoundTrip | src/schemas.py:44-47 | the columns read back from a candidate's encoding are the candidate's |
| Schemas.CandidateWithoutExtrasIsCandidateParsing | src/schemas.py:43-47 | a valid candidate with its extra columns removed is a valid candidate parse with the same content |
| Schemas.ValidateScoreBreakdown | src/schemas.py:50-55 | a breakdown validates exactly when the value is an object whose five score keys all hold integers, and each field is the integer under its key |
| Schemas.ScoreBreakdownRoundTrip | src/schemas.py:50-55 | any integers, inside 0–100 or not, round-trip through the breakdown validator |
| Schemas.ValidateEvaluationResult | src/schemas.py:57-66 | a valid evaluation is an object whose overall score is an integer, whose breakdown validates as one, whose summary is a string and whose five list keys hold lists of strings, each equal to the record's field |
| Schemas.EvaluationResultExactly | src/schemas.py:57-66 | an object validates to an evaluation exactly when each of the eight keys holds that record's field with its declared type |
| Schemas.EvaluationResultRoundTrip | src/schemas.py:57-66 | encoding an evaluation and validating it gives it back |
| Schemas.EvaluationExample | src/schemas.py:57-66 | a concrete evaluation object validates with overall score 72 |
| Schemas.ParseRecommendedStage | src/schemas.py:71 | a recommended stage validates exactly when it is "screened", "interview" or "rejected" |
| Schemas.ValidateScreeningResult | src/schemas.py:68-72 | a valid screening result holds its summary and rubric notes as strings and its stage as one of the literals, each equal to the record's field; an object holding a result's fields validates to it |
| Schemas.ScreeningResultRoundTrip | src/schemas.py:68-72 | encoding a screening result and validating it gives it back |
| Schemas.ScreeningStageLiterals | src/schemas.py:71 | an otherwise valid screening result validates exactly when its stage is one of the three literals |
| Schemas.ValidateOutreachMessage | src/schemas.py:75-77 | a valid outreach message holds a string subject and body |
| Schemas.OutreachMessageRoundTrip | src/schemas.py:75-77 | encoding an outreach message and validating it gives it back |
| Utils.FormatOf | src/utils.py:14-30 | the .pdf, .docx and .txt branches are each taken exactly when the lower-cased name ends in that suffix |
| Utils.FormatOfSuffix | src/utils.py:14-27 | the final suffix, in any letter case, selects the .pdf, .docx or .txt branch |
| Utils.FormatOfOther | src/utils.py:30 | a name without one of the three suffixes takes the fallback branch |
| Utils.Lines | src/utils.py:19-20 | text built from one or more items ends in a newline |
| Utils.LinesCons | src/utils.py:24-25 | the accumulated text is the first item, a newline, and the text of the rest |
| Utils.PageTexts | src/utils.py:16-20 | a PDF's text has at least one character (its newline) per page |
| Utils.PageTextsSuccessIff | src/utils.py:16-20 | the PDF's text is produced exactly when every page extracts |
| Utils.PageTextsFailureStays | src/utils.py:19-38 | once a page has failed, later pages change nothing |
| Utils.PageTextsAllSucceed | src/utils.py:19-20 | when every page extracts, the PDF text is the page texts each followed by a newline |
| Utils.PageTextsFirstFailure | src/utils.py:19-38 | a failing page makes the PDF fail with the first failing page's message |
| Utils.AccumulatePages | src/utils.py:19-20 | the page loop builds the page texts, each followed by a newline, or stops at the first failing page |
| Utils.AccumulateParagraphs | src/utils.py:24-25 | the paragraph loop builds the paragraph texts, each followed by a newline |
| Utils.ExtractedText | src/utils.py:16-40 | the result is trimmed text, or an "Error extracting text: " message from a recognised branch, or the unsupported-format message naming the file |
| Utils.ExtractTextFromFile | src/utils.py:7-40 | the extracted text is the reference function's: the trimmed text, or the error string of the failing branch |
| Utils.SuccessIsTrimmed | src/utils.py:40 | every successful extraction is trimmed |
| Utils.RecognisedFailureReported | src/utils.py:37-38 | a failure in the .pdf, .docx or .txt branch returns a string starting "Error extracting text: " |
| Utils.UnsupportedNamesFile | src/utils.py:31-35 | an undecodable file of another type returns exactly "Error: Unsupported file format for " + the name as given |
| Utils.PdfPagesJoined | src/utils.py:17-40 | a PDF whose pages all extract gives the trimmed page texts each followed by a newline |
| Utils.TwoPages | src/utils.py:19-40 | two pages a and b give trim(a + "\n" + b) |
| Utils.TxtHello | src/utils.py:27-40 | a .txt file holding "Hello" yields "Hello" |
| Db.CountOpen | src/db.py:227 | the open-job count is at most the job count |
| Db.OpenCountExtremes | src/db.py:227 | the open-job count is 0 when no job is open and the job count when all are |
| Db.CountStage | src/db.py:240-243 | a stage's count is at most the number of applications |
| Db.Funnel | src/db.py:238-244 | the funnel has exactly the six stages as keys, each count at most the number of applications |
| Db.DashboardStats | src/db.py:210-252 | open jobs ≤ total jobs; the funnel is empty or keyed by the six stages, each count ≤ total candidates; at most 5 recent applications |
| Db.CountOpenJobs | src/db.py:227 | the comprehension fails exactly when a job lacks "status", and otherwise counts the open jobs |
| Db.CountFunnel | src/db.py:239-243 | the funnel loop fails exactly when a stage is a list or a dict, and otherwise yields the funnel |
| Db.GetDashboardStats | src/db.py:207-252 | the stats filled step by step are the reference stats for the two query outcomes |
| Db.StagesDistinct | src/constants.py:4 | the six stages are distinct |
| Db.HitsNone | src/db.py:241-243 | an application at none of the given stages counts towards none of them |
| Db.HitsAtMostOne | src/db.py:241-243 | an application counts towards at most one of distinct stages |
| Db.StageTotalSnoc | src/db.py:240-243 | one more application adds its hits to the total over the stages |
| Db.StageTotalBounded | src/db.py:240-243 | over distinct stages, the counts add up to at most the number of applications |
| Db.FunnelTotalIsStageTotal | src/db.py:244 | the funnel's entries add up to the stage counts' total |
| Db.FunnelWithinCandidates | src/db.py:235-244 | the funnel counts add up to at most total_candidates |
| Db.MissingStageCountsAsNew | src/db.py:241 | an application with no stage key adds one to "new" and nothing elsewhere |
| Db.UnknownStageIgnored | src/db.py:242-243 | an application whose stage is none of the six changes no count |
| Db.RecentActivityIsFirstFive | src/db.py:235-247 | on success, recent activity is the first min(5, n) applications in fetched order |
| Db.FailureKeepsDefaults | src/db.py:210-252 | each failure leaves the fields not yet assigned at their zero or empty defaults |
| Db.CreateApplication | src/db.py:91-104 | a row comes back exactly when the insert answered with rows, and it is the first; no notice exactly on success; the warning exactly for an error mentioning "duplicate key" |
| Db.ApplyForJobAsCandidate | src/db.py:296-313 | True exactly when the insert succeeded, which is exactly when no notice is shown; the warning exactly for an error mentioning "duplicate key" |
| Db.DuplicateKeyClassified | src/db.py:98-104 | in both inserts (the same branch recurs at lines 307-313), an insert error warns exactly when it mentions "duplicate key", shows the message otherwise, and returns None/False |
| Db.UniqueViolationWarns | src/db.py:98-101 | any message with "duplicate key" inside takes the warning path |
| Db.InsertsAgree | src/db.py:296-313 | `apply_for_job_as_candidate` and `create_application` (lines 91-104) agree on success and on how an error is classified |
| Db.NewApplicationCountsAsNew | src/db.py:300-304 | a freshly inserted application adds one to the "new" funnel entry |
| JobsPage.CleanItems | pages/2_Jobs.py:118-120 | the cleaned list is no longer than the pieces, and every item is non-empty and trimmed |
| JobsPage.CleanItemsMembers | pages/2_Jobs.py:118-120 | the items are exactly the non-empty trimmed pieces |
| JobsPage.CleanItemsAppend | pages/2_Jobs.py:120 | cleaning works piece by piece, so the input's order is kept |
| JobsPage.CleanItemsKeepsClean | pages/2_Jobs.py:120 | pieces that are already clean all survive unchanged |
| JobsPage.ParseSkills | pages/2_Jobs.py:118-119 | each parsed skill is non-empty, trimmed and comma-free; the skills are exactly the non-empty trimmed comma-separated pieces of the text |
| JobsPage.ParseResponsibilities | pages/2_Jobs.py:120 | each parsed responsibility is non-empty, trimmed and without a newline; they are exactly the non-empty trimmed lines of the text |
| JobsPage.PrefillSkills | pages/2_Jobs.py:82-86 | the ", "-joined skills of a non-empty comma-free list split on "," into the skills, each after the first led by a space |
| JobsPage.PrefillResponsibilities | pages/2_Jobs.py:88-89 | the newline-joined responsibilities of a non-empty list of single lines split on newlines into that list |
| JobsPage.JoinCommaSpace | pages/2_Jobs.py:83 | a ", "-joined list is the ","-join of the items, each after the first prefixed by a space |
| JobsPage.CleanSpaced | pages/2_Jobs.py:83-119 | cleaning the pieces of a ", "-joined list of clean items gives the items back |
| JobsPage.SkillsRoundTrip | pages/2_Jobs.py:83-118 | clean, comma-free skills survive the pre-fill join and the parse |
| JobsPage.ResponsibilitiesRoundTrip | pages/2_Jobs.py:89-120 | clean, single-line responsibilities survive the pre-fill join and the parse |
| JobsPage.SkillsStable | pages/2_Jobs.py:83-118 | parsing, pre-filling and parsing again gives the first parse |
| JobsPage.InterviewStages | pages/2_Jobs.py:103-106 | the stages are the parsed JSON when the text parses, and the four default stages when it does not |
| JobsPage.SubmitJobForm | pages/2_Jobs.py:98-124 | the form fails with "Title is required" exactly when the title is empty. Otherwise the job is "open" and carries the user and the form's title, team, location, type and compensation; its lists are the parsed skill and responsibility fields; its stages are the parsed JSON, or the defaults when it does not parse; it takes the session's full text if present |
| JobsPage.BlankTitleAccepted | pages/2_Jobs.py:99 | a title of blanks is not empty and is accepted |
| JobsPage.PrefilledListsSurvive | pages/2_Jobs.py:83-120 | submitting the pre-filled list fields unchanged keeps a parsed job's clean lists |

## Left out

- Streamlit rendering and `st.error`/`st.warning`/`print` output. The
  notices of the two inserts are returned as values instead.
- Session state is left out too: the form takes the session's full
  job-description text as a parameter.
- The Supabase client and its queries are left out. Their results are
  inputs, given as rows or an error message.
- `get_supabase_client()` is called outside the `try`, and its failure is
  not modelled.
- The `role` argument of `get_dashboard_stats` is left out, since it does
  not affect the result.
- Left out in the LLM module:
  - the Gemini SDK, so each attempt's reply is an oracle;
  - how `configure_genai` looks up the key, which becomes a boolean;
  - the prompt texts and the JSON schema dump sent with them. The résumé
    excerpt (src/llm.py:122) is modelled.
  - the "Our Company" default that `generate_outreach` puts in its prompt
    when no company name is given (src/llm.py:136), since the prompt text
    is not modelled.
- `json.loads` and `json.dumps` are abstract. The form's pre-filled
  interview-stages JSON is therefore not modelled.
- PyPDF2, python-docx and the UTF-8 decoder are abstract readers that either
  yield pages or paragraphs or raise. Partial output from a failing reader
  is not modelled, because the code discards it.
- `redact_pii` in src/utils.py is left out. It relies on the regex engine.
- Pydantic's lax coercions are left out, for example "5" becoming 5 or 72.0
  becoming 72. The validators are strict, except that a float field accepts
  an integer.
- Floating-point values are modelled as reals. The dashboard's conversion
  rate and the form's 0.0 compensation defaults are left out.
- Utils.FormatOf lower-cases ASCII letters only. Python's `lower()` also
  maps other letters, but no such letter lower-cases to a character of
  ".pdf", ".docx" or ".txt".
- The form pre-fills its title, team, location and compensation from a
  parsed job. Those are plain copies and are not modelled.
