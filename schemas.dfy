/**
 * The record shapes of src/schemas.py as datatypes, each with a validator
 * over a JSON value (what pydantic does when the model class is built from a
 * decoded JSON object) and an encoder that the validator inverts.
 *
 * Every field declared without a default is a required key, the Optional
 * ones included (they accept null but not absence). Keys the class does not
 * declare are ignored. Types are checked strictly: a str field takes only a
 * JSON string, an int field only a JSON integer, a float field an integer or
 * a float.
 */
module Schemas {
  import opened Wrappers
  import opened JsonValue

  // ---------------------------------------------------------------------
  // Field readers: what one pydantic field type accepts.

  function AsString(v: Json): Option<string> {
    if v.JString? then Some(v.s) else None
  }

  function AsInt(v: Json): Option<int> {
    if v.JInt? then Some(v.i) else None
  }

  function AsFloat(v: Json): Option<real> {
    match v
    case JInt(i) => Some(i as real)
    case JFloat(r) => Some(r)
    case _ => None
  }

  /** List[str]. */
  function AsStringList(v: Json): Option<seq<string>> {
    if v.JArray? && forall x <- v.items :: x.JString? then
      Some(seq(|v.items|, k requires 0 <= k < |v.items| => v.items[k].s))
    else None
  }

  /** Dict[str, str]. */
  function AsStringMap(v: Json): Option<map<string, string>> {
    if v.JObject? && forall k <- v.fields :: v.fields[k].JString? then
      Some(map k | k in v.fields :: v.fields[k].s)
    else None
  }

  /** List[Dict[str, str]]. */
  function AsStringMapList(v: Json): Option<seq<map<string, string>>> {
    if v.JArray? && forall x <- v.items :: AsStringMap(x).Some? then
      Some(seq(|v.items|, k requires 0 <= k < |v.items| => AsStringMap(v.items[k]).value))
    else None
  }

  /** Optional[T]: null, or whatever T accepts. */
  function Nullable<T>(v: Json, read: Json -> Option<T>): Option<Option<T>> {
    if v.JNull? then Some(None)
    else match read(v)
      case Some(x) => Some(Some(x))
      case None => None
  }

  /** A declared field: the key must be present and its value accepted. */
  function Field<T>(m: map<string, Json>, key: string, read: Json -> Option<T>): Option<T> {
    if key in m then read(m[key]) else None
  }

  function NullableField<T>(m: map<string, Json>, key: string, read: Json -> Option<T>): Option<Option<T>> {
    if key in m then Nullable(m[key], read) else None
  }

  // ---------------------------------------------------------------------
  // Writers: the JSON a record serialises to.

  function StringsToJson(xs: seq<string>): Json {
    JArray(seq(|xs|, k requires 0 <= k < |xs| => JString(xs[k])))
  }

  function StringMapToJson(m: map<string, string>): Json {
    JObject(map k | k in m :: JString(m[k]))
  }

  function StringMapsToJson(ms: seq<map<string, string>>): Json {
    JArray(seq(|ms|, k requires 0 <= k < |ms| => StringMapToJson(ms[k])))
  }

  function NullableToJson<T>(o: Option<T>, write: T -> Json): Json {
    match o
    case None => JNull
    case Some(x) => write(x)
  }

  function StringToJson(s: string): Json { JString(s) }

  function FloatToJson(r: real): Json { JFloat(r) }

  lemma StringsRoundTrip(xs: seq<string>)
    ensures AsStringList(StringsToJson(xs)) == Some(xs)
  {
    var v := StringsToJson(xs);
    assert seq(|v.items|, k requires 0 <= k < |v.items| => v.items[k].s) == xs;
  }

  lemma StringMapRoundTrip(m: map<string, string>)
    ensures AsStringMap(StringMapToJson(m)) == Some(m)
  {
    var v := StringMapToJson(m);
    assert v.fields.Keys == m.Keys;
    assert forall k <- v.fields :: v.fields[k] == JString(m[k]);
    var r := map k | k in v.fields :: v.fields[k].s;
    assert r.Keys == m.Keys;
    assert forall k <- r :: r[k] == m[k];
    assert r == m;
  }

  lemma NullableStringRoundTrip(o: Option<string>)
    ensures Nullable(NullableToJson(o, StringToJson), AsString) == Some(o)
  {
  }

  lemma NullableFloatRoundTrip(o: Option<real>)
    ensures Nullable(NullableToJson(o, FloatToJson), AsFloat) == Some(o)
  {
  }

  lemma NullableStringMapRoundTrip(o: Option<map<string, string>>)
    ensures Nullable(NullableToJson(o, StringMapToJson), AsStringMap) == Some(o)
  {
    if o.Some? {
      StringMapRoundTrip(o.value);
    }
  }

  /** Two objects agree on the given keys: each key is in both or in neither, with equal values. */
  predicate AgreeOn(m: map<string, Json>, m': map<string, Json>, keys: set<string>) {
    forall k <- keys :: (k in m <==> k in m') && (k in m ==> m[k] == m'[k])
  }

  lemma StringMapsRoundTrip(ms: seq<map<string, string>>)
    ensures AsStringMapList(StringMapsToJson(ms)) == Some(ms)
  {
    var v := StringMapsToJson(ms);
    forall k | 0 <= k < |ms| ensures AsStringMap(v.items[k]) == Some(ms[k]) {
      StringMapRoundTrip(ms[k]);
    }
    assert seq(|v.items|, k requires 0 <= k < |v.items| => AsStringMap(v.items[k]).value) == ms;
  }

  // ---------------------------------------------------------------------
  // UserRole

  datatype Role = Admin | Recruiter | Manager

  datatype UserRole = UserRole(role: Role)

  function RoleName(r: Role): string {
    match r
    case Admin => "admin"
    case Recruiter => "recruiter"
    case Manager => "manager"
  }

  /** Literal['admin', 'recruiter', 'manager']. */
  function ParseRole(v: Json): (r: Option<Role>)
    ensures r.Some? <==> v in {JString("admin"), JString("recruiter"), JString("manager")}
    ensures r.Some? ==> v == JString(RoleName(r.value))
  {
    if v == JString("admin") then Some(Admin)
    else if v == JString("recruiter") then Some(Recruiter)
    else if v == JString("manager") then Some(Manager)
    else None
  }

  function ValidateUserRole(v: Json): (r: Option<UserRole>)
    ensures r.Some? ==> v.JObject? && "role" in v.fields && v.fields["role"] == JString(RoleName(r.value.role))
  {
    if !v.JObject? then None
    else
      var role :- Field(v.fields, "role", ParseRole);
      Some(UserRole(role))
  }

  function UserRoleToJson(u: UserRole): Json {
    JObject(map["role" := JString(RoleName(u.role))])
  }

  lemma UserRoleRoundTrip(u: UserRole)
    ensures ValidateUserRole(UserRoleToJson(u)) == Some(u)
  {
  }

  /** The role literal admits exactly the three staff roles; "candidate", which
      the application stores for portal users, does not validate. */
  lemma UserRoleLiterals(m: map<string, Json>)
    ensures ValidateUserRole(JObject(m)).Some? <==>
      "role" in m && m["role"] in {JString("admin"), JString("recruiter"), JString("manager")}
    ensures ValidateUserRole(JObject(map["role" := JString("candidate")])) == None
  {
  }

  // ---------------------------------------------------------------------
  // JobParsingSchema and Job

  datatype JobParsing = JobParsing(
    title: string,
    team: Option<string>,
    location: Option<string>,
    employment_type: Option<string>,
    comp_range_min: Option<real>,
    comp_range_max: Option<real>,
    must_have_skills: seq<string>,
    nice_to_have_skills: seq<string>,
    responsibilities: seq<string>,
    interview_stages: Option<seq<map<string, string>>>)

  const JobParsingKeys: set<string> := {
    "title", "team", "location", "employment_type", "comp_range_min", "comp_range_max",
    "must_have_skills", "nice_to_have_skills", "responsibilities", "interview_stages"}

  /** Every key of a job parse is present and holds its field's value, read with the field's declared type. */
  predicate JobParsingHolds(m: map<string, Json>, p: JobParsing) {
    && Field(m, "title", AsString) == Some(p.title)
    && NullableField(m, "team", AsString) == Some(p.team)
    && NullableField(m, "location", AsString) == Some(p.location)
    && NullableField(m, "employment_type", AsString) == Some(p.employment_type)
    && NullableField(m, "comp_range_min", AsFloat) == Some(p.comp_range_min)
    && NullableField(m, "comp_range_max", AsFloat) == Some(p.comp_range_max)
    && Field(m, "must_have_skills", AsStringList) == Some(p.must_have_skills)
    && Field(m, "nice_to_have_skills", AsStringList) == Some(p.nice_to_have_skills)
    && Field(m, "responsibilities", AsStringList) == Some(p.responsibilities)
    && NullableField(m, "interview_stages", AsStringMapList) == Some(p.interview_stages)
  }

  function ValidateJobParsing(v: Json): (r: Option<JobParsing>)
    ensures r.Some? ==> v.JObject? && JobParsingKeys <= v.fields.Keys
    ensures r.Some? ==> v.fields["title"] == JString(r.value.title)
    ensures r.Some? ==> JobParsingHolds(v.fields, r.value)
  {
    if !v.JObject? then None
    else
      var m := v.fields;
      var title :- Field(m, "title", AsString);
      var team :- NullableField(m, "team", AsString);
      var location :- NullableField(m, "location", AsString);
      var employmentType :- NullableField(m, "employment_type", AsString);
      var compMin :- NullableField(m, "comp_range_min", AsFloat);
      var compMax :- NullableField(m, "comp_range_max", AsFloat);
      var mustHave :- Field(m, "must_have_skills", AsStringList);
      var niceToHave :- Field(m, "nice_to_have_skills", AsStringList);
      var responsibilities :- Field(m, "responsibilities", AsStringList);
      var stages :- NullableField(m, "interview_stages", AsStringMapList);
      Some(JobParsing(title, team, location, employmentType, compMin, compMax,
                      mustHave, niceToHave, responsibilities, stages))
  }

  function JobParsingFields(p: JobParsing): map<string, Json> {
    map[
      "title" := JString(p.title),
      "team" := NullableToJson(p.team, StringToJson),
      "location" := NullableToJson(p.location, StringToJson),
      "employment_type" := NullableToJson(p.employment_type, StringToJson),
      "comp_range_min" := NullableToJson(p.comp_range_min, FloatToJson),
      "comp_range_max" := NullableToJson(p.comp_range_max, FloatToJson),
      "must_have_skills" := StringsToJson(p.must_have_skills),
      "nice_to_have_skills" := StringsToJson(p.nice_to_have_skills),
      "responsibilities" := StringsToJson(p.responsibilities),
      "interview_stages" := NullableToJson(p.interview_stages, StringMapsToJson)]
  }

  function JobParsingToJson(p: JobParsing): Json {
    JObject(JobParsingFields(p))
  }

  /** The job-parse validator looks at its own keys only. */
  lemma JobParsingReadsOwnKeys(m: map<string, Json>, m': map<string, Json>)
    requires AgreeOn(m, m', JobParsingKeys)
    ensures ValidateJobParsing(JObject(m)) == ValidateJobParsing(JObject(m'))
  {
    assert "title" in JobParsingKeys && "team" in JobParsingKeys && "location" in JobParsingKeys;
    assert "employment_type" in JobParsingKeys && "comp_range_min" in JobParsingKeys;
    assert "comp_range_max" in JobParsingKeys && "must_have_skills" in JobParsingKeys;
    assert "nice_to_have_skills" in JobParsingKeys && "responsibilities" in JobParsingKeys;
    assert "interview_stages" in JobParsingKeys;
    assert Field(m, "title", AsString) == Field(m', "title", AsString);
    assert NullableField(m, "team", AsString) == NullableField(m', "team", AsString);
    assert NullableField(m, "location", AsString) == NullableField(m', "location", AsString);
    assert NullableField(m, "employment_type", AsString) == NullableField(m', "employment_type", AsString);
    assert NullableField(m, "comp_range_min", AsFloat) == NullableField(m', "comp_range_min", AsFloat);
    assert NullableField(m, "comp_range_max", AsFloat) == NullableField(m', "comp_range_max", AsFloat);
    assert Field(m, "must_have_skills", AsStringList) == Field(m', "must_have_skills", AsStringList);
    assert Field(m, "nice_to_have_skills", AsStringList) == Field(m', "nice_to_have_skills", AsStringList);
    assert Field(m, "responsibilities", AsStringList) == Field(m', "responsibilities", AsStringList);
    assert NullableField(m, "interview_stages", AsStringMapList) == NullableField(m', "interview_stages", AsStringMapList);
  }

  /** What each key of a serialised job parse holds. */
  lemma JobParsingFieldsAt(p: JobParsing)
    ensures JobParsingFields(p).Keys == JobParsingKeys
    ensures JobParsingFields(p)["title"] == JString(p.title)
    ensures JobParsingFields(p)["team"] == NullableToJson(p.team, StringToJson)
    ensures JobParsingFields(p)["location"] == NullableToJson(p.location, StringToJson)
    ensures JobParsingFields(p)["employment_type"] == NullableToJson(p.employment_type, StringToJson)
    ensures JobParsingFields(p)["comp_range_min"] == NullableToJson(p.comp_range_min, FloatToJson)
    ensures JobParsingFields(p)["comp_range_max"] == NullableToJson(p.comp_range_max, FloatToJson)
    ensures JobParsingFields(p)["must_have_skills"] == StringsToJson(p.must_have_skills)
    ensures JobParsingFields(p)["nice_to_have_skills"] == StringsToJson(p.nice_to_have_skills)
    ensures JobParsingFields(p)["responsibilities"] == StringsToJson(p.responsibilities)
    ensures JobParsingFields(p)["interview_stages"] == NullableToJson(p.interview_stages, StringMapsToJson)
  {
  }

  /** A job parse validates to the record whose fields its keys each hold. */
  lemma JobParsingFromFields(m: map<string, Json>, p: JobParsing)
    requires JobParsingHolds(m, p)
    ensures ValidateJobParsing(JObject(m)) == Some(p)
  {
  }

  /** An object validates to a job parse exactly when each of its keys holds that record's field. */
  lemma JobParsingExactly(m: map<string, Json>, p: JobParsing)
    ensures ValidateJobParsing(JObject(m)) == Some(p) <==> JobParsingHolds(m, p)
  {
    if JobParsingHolds(m, p) {
      JobParsingFromFields(m, p);
    }
  }

  /** Serialising a job parse and validating it again gives the same record. */
  lemma JobParsingRoundTrip(p: JobParsing)
    ensures ValidateJobParsing(JobParsingToJson(p)) == Some(p)
  {
    var m := JobParsingFields(p);
    JobParsingFieldsAt(p);
    NullableStringRoundTrip(p.team);
    NullableStringRoundTrip(p.location);
    NullableStringRoundTrip(p.employment_type);
    NullableFloatRoundTrip(p.comp_range_min);
    NullableFloatRoundTrip(p.comp_range_max);
    StringsRoundTrip(p.must_have_skills);
    StringsRoundTrip(p.nice_to_have_skills);
    StringsRoundTrip(p.responsibilities);
    if p.interview_stages.Some? {
      StringMapsRoundTrip(p.interview_stages.value);
    }
    JobParsingFromFields(m, p);
  }

  /** A null team validates, as Optional[str] allows. */
  lemma JobParsingTeamNullable(p: JobParsing)
    ensures ValidateJobParsing(JObject(JobParsingFields(p)["team" := JNull])) == Some(p.(team := None))
  {
    var m := JobParsingFields(p);
    JobParsingRoundTrip(p);
    assert JobParsingHolds(m, p);
    var m' := m["team" := JNull];
    assert JobParsingHolds(m', p.(team := None));
    JobParsingFromFields(m', p.(team := None));
  }

  /**
   * The Optional fields accept null, yet every key is required: no field
   * has a default. The title, a plain str, refuses null.
   */
  lemma JobParsingNullability(p: JobParsing, key: string)
    requires key in JobParsingKeys
    ensures ValidateJobParsing(JObject(JobParsingFields(p)["team" := JNull])) == Some(p.(team := None))
    ensures ValidateJobParsing(JObject(JobParsingFields(p)["title" := JNull])) == None
    ensures ValidateJobParsing(JObject(JobParsingFields(p) - {key})) == None
  {
    JobParsingTeamNullable(p);
    assert key !in (JobParsingFields(p) - {key}).Keys;
  }

  /** Nothing orders the two ends of the compensation range: a minimum above
      the maximum validates. */
  lemma CompRangeUnordered(p: JobParsing)
    requires p.comp_range_min.Some? && p.comp_range_max.Some?
    requires p.comp_range_min.value > p.comp_range_max.value
    ensures ValidateJobParsing(JobParsingToJson(p)) == Some(p)
  {
    JobParsingRoundTrip(p);
  }

  datatype JobStatus = Open | Closed | Draft

  function JobStatusName(s: JobStatus): string {
    match s
    case Open => "open"
    case Closed => "closed"
    case Draft => "draft"
  }

  /** Literal['open', 'closed', 'draft']. */
  function ParseJobStatus(v: Json): (r: Option<JobStatus>)
    ensures r.Some? <==> v in {JString("open"), JString("closed"), JString("draft")}
    ensures r.Some? ==> v == JString(JobStatusName(r.value))
  {
    if v == JString("open") then Some(Open)
    else if v == JString("closed") then Some(Closed)
    else if v == JString("draft") then Some(Draft)
    else None
  }

  /** Job extends JobParsingSchema with the stored columns. */
  datatype Job = Job(
    parsing: JobParsing,
    id: string,
    created_by: string,
    status: JobStatus,
    jd_text: string,
    created_at: string)

  const JobExtraKeys: set<string> := {"id", "created_by", "status", "jd_text", "created_at"}

  /** The columns a Job adds to a job parse, checked on their own. */
  /** Every stored column of a job is present and holds its field's value, read with its declared type. */
  predicate JobColumnsHold(m: map<string, Json>, j: Job) {
    && Field(m, "id", AsString) == Some(j.id)
    && Field(m, "created_by", AsString) == Some(j.created_by)
    && Field(m, "status", ParseJobStatus) == Some(j.status)
    && Field(m, "jd_text", AsString) == Some(j.jd_text)
    && Field(m, "created_at", AsString) == Some(j.created_at)
  }

  function JobColumns(m: map<string, Json>, parsing: JobParsing): (r: Option<Job>)
    ensures r.Some? ==> JobExtraKeys <= m.Keys && r.value.parsing == parsing
    ensures r.Some? ==> m["status"] == JString(JobStatusName(r.value.status))
    ensures r.Some? ==> JobColumnsHold(m, r.value)
    ensures forall j: Job :: j.parsing == parsing && JobColumnsHold(m, j) ==> r == Some(j)
  {
    var id :- Field(m, "id", AsString);
    var createdBy :- Field(m, "created_by", AsString);
    var status :- Field(m, "status", ParseJobStatus);
    var jdText :- Field(m, "jd_text", AsString);
    var createdAt :- Field(m, "created_at", AsString);
    Some(Job(parsing, id, createdBy, status, jdText, createdAt))
  }

  function ValidateJob(v: Json): (r: Option<Job>)
    ensures r.Some? ==> v.JObject? && JobParsingKeys + JobExtraKeys <= v.fields.Keys
    ensures r.Some? ==> ValidateJobParsing(v) == Some(r.value.parsing)
    ensures r.Some? ==> v.fields["status"] == JString(JobStatusName(r.value.status))
    ensures r.Some? ==> JobColumnsHold(v.fields, r.value)
  {
    var parsing :- ValidateJobParsing(v);
    JobColumns(v.fields, parsing)
  }

  /** An object validates to a job exactly when its job-parse keys and its columns each hold that job's fields. */
  lemma JobExactly(m: map<string, Json>, j: Job)
    ensures ValidateJob(JObject(m)) == Some(j) <==> JobParsingHolds(m, j.parsing) && JobColumnsHold(m, j)
  {
    JobParsingExactly(m, j.parsing);
  }

  function JobColumnFields(j: Job): map<string, Json> {
    map[
      "id" := JString(j.id),
      "created_by" := JString(j.created_by),
      "status" := JString(JobStatusName(j.status)),
      "jd_text" := JString(j.jd_text),
      "created_at" := JString(j.created_at)]
  }

  function JobToJson(j: Job): Json {
    JObject(JobParsingFields(j.parsing) + JobColumnFields(j))
  }

  /** The serialised job holds the parse fields and the columns side by side. */
  lemma JobFieldsAgree(j: Job)
    ensures AgreeOn(JobToJson(j).fields, JobParsingFields(j.parsing), JobParsingKeys)
    ensures AgreeOn(JobToJson(j).fields, JobColumnFields(j), JobExtraKeys)
  {
    assert JobColumnFields(j).Keys == JobExtraKeys;
    assert JobParsingKeys !! JobExtraKeys;
  }

  lemma JobRoundTrip(j: Job)
    ensures ValidateJob(JobToJson(j)) == Some(j)
  {
    var m := JobToJson(j).fields;
    JobFieldsAgree(j);
    JobParsingReadsOwnKeys(m, JobParsingFields(j.parsing));
    JobParsingRoundTrip(j.parsing);
    JobColumnsRoundTrip(m, j);
  }

  /** An object that is a valid job parse and carries the other four columns as
      strings validates as a Job exactly when its status is one of the three literals. */
  lemma JobStatusLiterals(m: map<string, Json>)
    requires ValidateJobParsing(JObject(m)).Some?
    requires forall k <- JobExtraKeys - {"status"} :: k in m && m[k].JString?
    ensures ValidateJob(JObject(m)).Some? <==>
      "status" in m && m["status"] in {JString("open"), JString("closed"), JString("draft")}
  {
    assert "id" in JobExtraKeys - {"status"} && "created_by" in JobExtraKeys - {"status"};
    assert "jd_text" in JobExtraKeys - {"status"} && "created_at" in JobExtraKeys - {"status"};
  }

  /** A valid Job with its own columns removed is a valid JobParsingSchema,
      with the same parsed fields. */
  lemma JobWithoutExtrasIsJobParsing(m: map<string, Json>)
    requires ValidateJob(JObject(m)).Some?
    ensures ValidateJobParsing(JObject(m - JobExtraKeys)) == Some(ValidateJob(JObject(m)).value.parsing)
  {
    assert JobParsingKeys !! JobExtraKeys;
    assert AgreeOn(m - JobExtraKeys, m, JobParsingKeys);
    JobParsingReadsOwnKeys(m - JobExtraKeys, m);
  }

  lemma JobColumnsRoundTrip(m: map<string, Json>, j: Job)
    requires AgreeOn(m, JobColumnFields(j), JobExtraKeys)
    ensures JobColumns(m, j.parsing) == Some(j)
  {
    assert "id" in JobExtraKeys && "created_by" in JobExtraKeys && "status" in JobExtraKeys;
    assert "jd_text" in JobExtraKeys && "created_at" in JobExtraKeys;
  }

  // ---------------------------------------------------------------------
  // CandidateParsingSchema and Candidate

  datatype CandidateParsing = CandidateParsing(
    full_name: string,
    email: Option<string>,
    phone: Option<string>,
    location: Option<string>,
    links: Option<map<string, string>>,
    experience_years: Option<real>,
    skills: seq<string>,
    education: seq<string>)

  const CandidateParsingKeys: set<string> := {
    "full_name", "email", "phone", "location", "links", "experience_years", "skills", "education"}

  /** Every key of a candidate parse is present and holds its field's value, read with the field's declared type. */
  predicate CandidateParsingHolds(m: map<string, Json>, c: CandidateParsing) {
    && Field(m, "full_name", AsString) == Some(c.full_name)
    && NullableField(m, "email", AsString) == Some(c.email)
    && NullableField(m, "phone", AsString) == Some(c.phone)
    && NullableField(m, "location", AsString) == Some(c.location)
    && NullableField(m, "links", AsStringMap) == Some(c.links)
    && NullableField(m, "experience_years", AsFloat) == Some(c.experience_years)
    && Field(m, "skills", AsStringList) == Some(c.skills)
    && Field(m, "education", AsStringList) == Some(c.education)
  }

  function ValidateCandidateParsing(v: Json): (r: Option<CandidateParsing>)
    ensures r.Some? ==> v.JObject? && CandidateParsingKeys <= v.fields.Keys
    ensures r.Some? ==> v.fields["full_name"] == JString(r.value.full_name)
    ensures r.Some? ==> CandidateParsingHolds(v.fields, r.value)
  {
    if !v.JObject? then None
    else
      var m := v.fields;
      var fullName :- Field(m, "full_name", AsString);
      var email :- NullableField(m, "email", AsString);
      var phone :- NullableField(m, "phone", AsString);
      var location :- NullableField(m, "location", AsString);
      var links :- NullableField(m, "links", AsStringMap);
      var years :- NullableField(m, "experience_years", AsFloat);
      var skills :- Field(m, "skills", AsStringList);
      var education :- Field(m, "education", AsStringList);
      Some(CandidateParsing(fullName, email, phone, location, links, years, skills, education))
  }

  function CandidateParsingFields(c: CandidateParsing): map<string, Json> {
    map[
      "full_name" := JString(c.full_name),
      "email" := NullableToJson(c.email, StringToJson),
      "phone" := NullableToJson(c.phone, StringToJson),
      "location" := NullableToJson(c.location, StringToJson),
      "links" := NullableToJson(c.links, StringMapToJson),
      "experience_years" := NullableToJson(c.experience_years, FloatToJson),
      "skills" := StringsToJson(c.skills),
      "education" := StringsToJson(c.education)]
  }

  function CandidateParsingToJson(c: CandidateParsing): Json {
    JObject(CandidateParsingFields(c))
  }

  /** The candidate-parse validator looks at its own keys only. */
  lemma CandidateParsingReadsOwnKeys(m: map<string, Json>, m': map<string, Json>)
    requires AgreeOn(m, m', CandidateParsingKeys)
    ensures ValidateCandidateParsing(JObject(m)) == ValidateCandidateParsing(JObject(m'))
  {
    assert "full_name" in CandidateParsingKeys && "email" in CandidateParsingKeys;
    assert "phone" in CandidateParsingKeys && "location" in CandidateParsingKeys;
    assert "links" in CandidateParsingKeys && "experience_years" in CandidateParsingKeys;
    assert "skills" in CandidateParsingKeys && "education" in CandidateParsingKeys;
  }

  /** What each key of a serialised candidate parse holds. */
  lemma CandidateParsingFieldsAt(c: CandidateParsing)
    ensures CandidateParsingFields(c).Keys == CandidateParsingKeys
    ensures CandidateParsingFields(c)["full_name"] == JString(c.full_name)
    ensures CandidateParsingFields(c)["email"] == NullableToJson(c.email, StringToJson)
    ensures CandidateParsingFields(c)["phone"] == NullableToJson(c.phone, StringToJson)
    ensures CandidateParsingFields(c)["location"] == NullableToJson(c.location, StringToJson)
    ensures CandidateParsingFields(c)["links"] == NullableToJson(c.links, StringMapToJson)
    ensures CandidateParsingFields(c)["experience_years"] == NullableToJson(c.experience_years, FloatToJson)
    ensures CandidateParsingFields(c)["skills"] == StringsToJson(c.skills)
    ensures CandidateParsingFields(c)["education"] == StringsToJson(c.education)
  {
  }

  /** A candidate parse validates to the record whose fields its keys each hold. */
  lemma CandidateParsingFromFields(m: map<string, Json>, c: CandidateParsing)
    requires CandidateParsingHolds(m, c)
    ensures ValidateCandidateParsing(JObject(m)) == Some(c)
  {
  }

  /** An object validates to a candidate parse exactly when each of its keys holds that record's field. */
  lemma CandidateParsingExactly(m: map<string, Json>, c: CandidateParsing)
    ensures ValidateCandidateParsing(JObject(m)) == Some(c) <==> CandidateParsingHolds(m, c)
  {
    if CandidateParsingHolds(m, c) {
      CandidateParsingFromFields(m, c);
    }
  }

  lemma CandidateParsingRoundTrip(c: CandidateParsing)
    ensures ValidateCandidateParsing(CandidateParsingToJson(c)) == Some(c)
  {
    CandidateParsingFieldsAt(c);
    NullableStringRoundTrip(c.email);
    NullableStringRoundTrip(c.phone);
    NullableStringRoundTrip(c.location);
    NullableStringMapRoundTrip(c.links);
    NullableFloatRoundTrip(c.experience_years);
    StringsRoundTrip(c.skills);
    StringsRoundTrip(c.education);
    CandidateParsingFromFields(CandidateParsingFields(c), c);
  }

  /** A null email validates, as Optional[str] allows. */
  lemma CandidateParsingEmailNullable(c: CandidateParsing)
    ensures ValidateCandidateParsing(JObject(CandidateParsingFields(c)["email" := JNull])) == Some(c.(email := None))
  {
    CandidateParsingFieldsAt(c);
    NullableStringRoundTrip(c.phone);
    NullableStringRoundTrip(c.location);
    NullableStringMapRoundTrip(c.links);
    NullableFloatRoundTrip(c.experience_years);
    StringsRoundTrip(c.skills);
    StringsRoundTrip(c.education);
    CandidateParsingFromFields(CandidateParsingFields(c)["email" := JNull], c.(email := None));
  }

  /**
   * As for job parses: a null email validates, a missing email key or a
   * null full name does not.
   */
  lemma CandidateParsingNullability(c: CandidateParsing, key: string)
    requires key in CandidateParsingKeys
    ensures ValidateCandidateParsing(JObject(CandidateParsingFields(c)["email" := JNull])) == Some(c.(email := None))
    ensures ValidateCandidateParsing(JObject(CandidateParsingFields(c)["full_name" := JNull])) == None
    ensures ValidateCandidateParsing(JObject(CandidateParsingFields(c) - {key})) == None
  {
    CandidateParsingEmailNullable(c);
    assert key !in (CandidateParsingFields(c) - {key}).Keys;
  }

  /** Candidate extends CandidateParsingSchema with the stored columns. */
  datatype Candidate = Candidate(
    parsing: CandidateParsing,
    id: string,
    resume_text: string,
    resume_file_path: Option<string>,
    created_at: string)

  const CandidateExtraKeys: set<string> := {"id", "resume_text", "resume_file_path", "created_at"}

  /** The columns a Candidate adds to a candidate parse, checked on their own. */
  /** Every stored column of a candidate is present and holds its field's value, read with its declared type. */
  predicate CandidateColumnsHold(m: map<string, Json>, c: Candidate) {
    && Field(m, "id", AsString) == Some(c.id)
    && Field(m, "resume_text", AsString) == Some(c.resume_text)
    && NullableField(m, "resume_file_path", AsString) == Some(c.resume_file_path)
    && Field(m, "created_at", AsString) == Some(c.created_at)
  }

  function CandidateColumns(m: map<string, Json>, parsing: CandidateParsing): (r: Option<Candidate>)
    ensures r.Some? ==> CandidateExtraKeys <= m.Keys && r.value.parsing == parsing
    ensures r.Some? ==> CandidateColumnsHold(m, r.value)
    ensures forall c: Candidate :: c.parsing == parsing && CandidateColumnsHold(m, c) ==> r == Some(c)
  {
    var id :- Field(m, "id", AsString);
    var resumeText :- Field(m, "resume_text", AsString);
    var resumePath :- NullableField(m, "resume_file_path", AsString);
    var createdAt :- Field(m, "created_at", AsString);
    Some(Candidate(parsing, id, resumeText, resumePath, createdAt))
  }

  function ValidateCandidate(v: Json): (r: Option<Candidate>)
    ensures r.Some? ==> v.JObject? && CandidateParsingKeys + CandidateExtraKeys <= v.fields.Keys
    ensures r.Some? ==> ValidateCandidateParsing(v) == Some(r.value.parsing)
    ensures r.Some? ==> CandidateColumnsHold(v.fields, r.value)
  {
    var parsing :- ValidateCandidateParsing(v);
    CandidateColumns(v.fields, parsing)
  }

  /** An object validates to a candidate exactly when its candidate-parse keys and its columns each hold that candidate's fields. */
  lemma CandidateExactly(m: map<string, Json>, c: Candidate)
    ensures ValidateCandidate(JObject(m)) == Some(c) <==> CandidateParsingHolds(m, c.parsing) && CandidateColumnsHold(m, c)
  {
    CandidateParsingExactly(m, c.parsing);
  }

  function CandidateColumnFields(c: Candidate): map<string, Json> {
    map[
      "id" := JString(c.id),
      "resume_text" := JString(c.resume_text),
      "resume_file_path" := NullableToJson(c.resume_file_path, StringToJson),
      "created_at" := JString(c.created_at)]
  }

  function CandidateToJson(c: Candidate): Json {
    JObject(CandidateParsingFields(c.parsing) + CandidateColumnFields(c))
  }

  /** Joining two objects with disjoint keys keeps what each holds. */
  lemma UnionAgrees(a: map<string, Json>, b: map<string, Json>)
    requires a.Keys !! b.Keys
    ensures AgreeOn(a + b, a, a.Keys) && AgreeOn(a + b, b, b.Keys)
  {
  }

  lemma CandidateRoundTrip(c: Candidate)
    ensures ValidateCandidate(CandidateToJson(c)) == Some(c)
  {
    var parsed := CandidateParsingFields(c.parsing);
    var columns := CandidateColumnFields(c);
    var m := parsed + columns;
    CandidateParsingFieldsAt(c.parsing);
    assert columns.Keys == CandidateExtraKeys;
    assert CandidateParsingKeys !! CandidateExtraKeys;
    UnionAgrees(parsed, columns);
    CandidateParsingReadsOwnKeys(m, parsed);
    CandidateParsingRoundTrip(c.parsing);
    CandidateColumnsRoundTrip(m, c);
  }

  lemma CandidateColumnsRoundTrip(m: map<string, Json>, c: Candidate)
    requires AgreeOn(m, CandidateColumnFields(c), CandidateExtraKeys)
    ensures CandidateColumns(m, c.parsing) == Some(c)
  {
    assert "id" in CandidateExtraKeys && "resume_text" in CandidateExtraKeys;
    assert "resume_file_path" in CandidateExtraKeys && "created_at" in CandidateExtraKeys;
  }

  /** A valid Candidate with its own columns removed is a valid
      CandidateParsingSchema, with the same parsed fields. */
  lemma CandidateWithoutExtrasIsCandidateParsing(m: map<string, Json>)
    requires ValidateCandidate(JObject(m)).Some?
    ensures ValidateCandidateParsing(JObject(m - CandidateExtraKeys)) == Some(ValidateCandidate(JObject(m)).value.parsing)
  {
    assert CandidateParsingKeys !! CandidateExtraKeys;
    assert AgreeOn(m - CandidateExtraKeys, m, CandidateParsingKeys);
    CandidateParsingReadsOwnKeys(m - CandidateExtraKeys, m);
  }

  // ---------------------------------------------------------------------
  // ScoreBreakdown and EvaluationResult

  /** Plain integers: the 0-100 range is only in the field descriptions. */
  datatype ScoreBreakdown = ScoreBreakdown(
    skills_match: int,
    experience_relevance: int,
    impact: int,
    communication: int,
    seniority_fit: int)

  /** The five sub-scores of a breakdown, each a required integer. */
  const ScoreKeys: set<string> := {"skills_match", "experience_relevance", "impact", "communication", "seniority_fit"}

  function ValidateScoreBreakdown(v: Json): (r: Option<ScoreBreakdown>)
    ensures r.Some? <==> v.JObject? && forall k <- ScoreKeys :: k in v.fields && v.fields[k].JInt?
    ensures r.Some? ==> && v.fields["skills_match"] == JInt(r.value.skills_match)
                        && v.fields["experience_relevance"] == JInt(r.value.experience_relevance)
                        && v.fields["impact"] == JInt(r.value.impact)
                        && v.fields["communication"] == JInt(r.value.communication)
                        && v.fields["seniority_fit"] == JInt(r.value.seniority_fit)
  {
    if !v.JObject? then None
    else
      var m := v.fields;
      var skills :- Field(m, "skills_match", AsInt);
      var experience :- Field(m, "experience_relevance", AsInt);
      var impact :- Field(m, "impact", AsInt);
      var communication :- Field(m, "communication", AsInt);
      var seniority :- Field(m, "seniority_fit", AsInt);
      Some(ScoreBreakdown(skills, experience, impact, communication, seniority))
  }

  function ScoreBreakdownToJson(b: ScoreBreakdown): Json {
    JObject(map[
      "skills_match" := JInt(b.skills_match),
      "experience_relevance" := JInt(b.experience_relevance),
      "impact" := JInt(b.impact),
      "communication" := JInt(b.communication),
      "seniority_fit" := JInt(b.seniority_fit)])
  }

  /** Every integer sub-score round-trips, those outside 0..100 included:
      the validator enforces no range. */
  lemma ScoreBreakdownRoundTrip(b: ScoreBreakdown)
    ensures ValidateScoreBreakdown(ScoreBreakdownToJson(b)) == Some(b)
  {
  }

  datatype EvaluationResult = EvaluationResult(
    overall_score: int,
    score_breakdown: ScoreBreakdown,
    ai_summary: string,
    strengths: seq<string>,
    concerns: seq<string>,
    missing_must_haves: seq<string>,
    risk_flags: seq<string>,
    suggested_interview_questions: seq<string>)

  const EvaluationListKeys: set<string> := {
    "strengths", "concerns", "missing_must_haves", "risk_flags", "suggested_interview_questions"}

  /** Every key of an evaluation is present and holds its field's value, read with the field's declared type. */
  predicate EvaluationResultHolds(m: map<string, Json>, e: EvaluationResult) {
    && Field(m, "overall_score", AsInt) == Some(e.overall_score)
    && Field(m, "score_breakdown", ValidateScoreBreakdown) == Some(e.score_breakdown)
    && Field(m, "ai_summary", AsString) == Some(e.ai_summary)
    && Field(m, "strengths", AsStringList) == Some(e.strengths)
    && Field(m, "concerns", AsStringList) == Some(e.concerns)
    && Field(m, "missing_must_haves", AsStringList) == Some(e.missing_must_haves)
    && Field(m, "risk_flags", AsStringList) == Some(e.risk_flags)
    && Field(m, "suggested_interview_questions", AsStringList) == Some(e.suggested_interview_questions)
  }

  function ValidateEvaluationResult(v: Json): (r: Option<EvaluationResult>)
    ensures r.Some? ==> v.JObject? && EvaluationResultHolds(v.fields, r.value)
    ensures r.Some? ==> v.JObject? && "score_breakdown" in v.fields
    ensures r.Some? ==> ValidateScoreBreakdown(v.fields["score_breakdown"]) == Some(r.value.score_breakdown)
    ensures r.Some? ==> forall k <- EvaluationListKeys :: k in v.fields && AsStringList(v.fields[k]).Some?
  {
    if !v.JObject? then None
    else
      var m := v.fields;
      var overall :- Field(m, "overall_score", AsInt);
      var breakdown :- Field(m, "score_breakdown", ValidateScoreBreakdown);
      var summary :- Field(m, "ai_summary", AsString);
      var strengths :- Field(m, "strengths", AsStringList);
      var concerns :- Field(m, "concerns", AsStringList);
      var missing :- Field(m, "missing_must_haves", AsStringList);
      var risks :- Field(m, "risk_flags", AsStringList);
      var questions :- Field(m, "suggested_interview_questions", AsStringList);
      Some(EvaluationResult(overall, breakdown, summary, strengths, concerns, missing, risks, questions))
  }

  function EvaluationResultToJson(e: EvaluationResult): Json {
    JObject(map[
      "overall_score" := JInt(e.overall_score),
      "score_breakdown" := ScoreBreakdownToJson(e.score_breakdown),
      "ai_summary" := JString(e.ai_summary),
      "strengths" := StringsToJson(e.strengths),
      "concerns" := StringsToJson(e.concerns),
      "missing_must_haves" := StringsToJson(e.missing_must_haves),
      "risk_flags" := StringsToJson(e.risk_flags),
      "suggested_interview_questions" := StringsToJson(e.suggested_interview_questions)])
  }

  /** An evaluation validates to the record whose fields its keys each hold. */
  lemma EvaluationResultFromFields(m: map<string, Json>, e: EvaluationResult)
    requires EvaluationResultHolds(m, e)
    ensures ValidateEvaluationResult(JObject(m)) == Some(e)
  {
  }

  /** An object validates to an evaluation exactly when each of its keys holds that record's field. */
  lemma EvaluationResultExactly(m: map<string, Json>, e: EvaluationResult)
    ensures ValidateEvaluationResult(JObject(m)) == Some(e) <==> EvaluationResultHolds(m, e)
  {
    if EvaluationResultHolds(m, e) {
      EvaluationResultFromFields(m, e);
    }
  }

  lemma EvaluationResultRoundTrip(e: EvaluationResult)
    ensures ValidateEvaluationResult(EvaluationResultToJson(e)) == Some(e)
  {
    ScoreBreakdownRoundTrip(e.score_breakdown);
    StringsRoundTrip(e.strengths);
    StringsRoundTrip(e.concerns);
    StringsRoundTrip(e.missing_must_haves);
    StringsRoundTrip(e.risk_flags);
    StringsRoundTrip(e.suggested_interview_questions);
    EvaluationResultFromFields(EvaluationResultToJson(e).fields, e);
  }

  /** A sample evaluation reply: it validates, with overall score 72. */
  lemma EvaluationExample()
    ensures
      var breakdown := JObject(map[
        "skills_match" := JInt(80), "experience_relevance" := JInt(70), "impact" := JInt(65),
        "communication" := JInt(75), "seniority_fit" := JInt(70)]);
      var reply := JObject(map[
        "overall_score" := JInt(72), "score_breakdown" := breakdown, "ai_summary" := JString("Good fit"),
        "strengths" := JArray([JString("Python")]), "concerns" := JArray([]),
        "missing_must_haves" := JArray([]), "risk_flags" := JArray([]),
        "suggested_interview_questions" := JArray([])]);
      ValidateEvaluationResult(reply) ==
        Some(EvaluationResult(72, ScoreBreakdown(80, 70, 65, 75, 70), "Good fit", ["Python"], [], [], [], []))
  {
    var b := ScoreBreakdown(80, 70, 65, 75, 70);
    var breakdown := ScoreBreakdownToJson(b);
    var m := map[
      "overall_score" := JInt(72), "score_breakdown" := breakdown, "ai_summary" := JString("Good fit"),
      "strengths" := JArray([JString("Python")]), "concerns" := JArray([]),
      "missing_must_haves" := JArray([]), "risk_flags" := JArray([]),
      "suggested_interview_questions" := JArray([])];
    ScoreBreakdownRoundTrip(b);
    assert Field(m, "score_breakdown", ValidateScoreBreakdown) == Some(b);
    StringsRoundTrip(["Python"]);
    assert StringsToJson(["Python"]) == JArray([JString("Python")]);
    StringsRoundTrip([]);
    assert StringsToJson([]) == JArray([]);
    EvaluationResultFromFields(m, EvaluationResult(72, b, "Good fit", ["Python"], [], [], [], []));
  }

  // ---------------------------------------------------------------------
  // ScreeningResult

  datatype RecommendedStage = Screened | Interview | Rejected

  function RecommendedStageName(s: RecommendedStage): string {
    match s
    case Screened => "screened"
    case Interview => "interview"
    case Rejected => "rejected"
  }

  /** Literal['screened', 'interview', 'rejected']. */
  function ParseRecommendedStage(v: Json): (r: Option<RecommendedStage>)
    ensures r.Some? <==> v in {JString("screened"), JString("interview"), JString("rejected")}
    ensures r.Some? ==> v == JString(RecommendedStageName(r.value))
  {
    if v == JString("screened") then Some(Screened)
    else if v == JString("interview") then Some(Interview)
    else if v == JString("rejected") then Some(Rejected)
    else None
  }

  datatype ScreeningResult = ScreeningResult(
    summary: string,
    recommended_stage: RecommendedStage,
    updated_rubric_notes: string)

  /** Every key of a screening result is present and holds its field's value, read with the field's declared type. */
  predicate ScreeningResultHolds(m: map<string, Json>, s: ScreeningResult) {
    && Field(m, "summary", AsString) == Some(s.summary)
    && Field(m, "recommended_stage", ParseRecommendedStage) == Some(s.recommended_stage)
    && Field(m, "updated_rubric_notes", AsString) == Some(s.updated_rubric_notes)
  }

  function ValidateScreeningResult(v: Json): (r: Option<ScreeningResult>)
    ensures r.Some? ==> v.JObject? && "recommended_stage" in v.fields
    ensures r.Some? ==> v.fields["recommended_stage"] == JString(RecommendedStageName(r.value.recommended_stage))
    ensures r.Some? ==> v.JObject? && ScreeningResultHolds(v.fields, r.value)
    ensures forall s: ScreeningResult :: v.JObject? && ScreeningResultHolds(v.fields, s) ==> r == Some(s)
  {
    if !v.JObject? then None
    else
      var m := v.fields;
      var summary :- Field(m, "summary", AsString);
      var stage :- Field(m, "recommended_stage", ParseRecommendedStage);
      var notes :- Field(m, "updated_rubric_notes", AsString);
      Some(ScreeningResult(summary, stage, notes))
  }

  function ScreeningResultToJson(s: ScreeningResult): Json {
    JObject(map[
      "summary" := JString(s.summary),
      "recommended_stage" := JString(RecommendedStageName(s.recommended_stage)),
      "updated_rubric_notes" := JString(s.updated_rubric_notes)])
  }

  lemma ScreeningResultRoundTrip(s: ScreeningResult)
    ensures ValidateScreeningResult(ScreeningResultToJson(s)) == Some(s)
  {
  }

  /** With both text fields present as strings, a screening result validates
      exactly when its stage is "screened", "interview" or "rejected". */
  lemma ScreeningStageLiterals(m: map<string, Json>)
    requires "summary" in m && m["summary"].JString?
    requires "updated_rubric_notes" in m && m["updated_rubric_notes"].JString?
    ensures ValidateScreeningResult(JObject(m)).Some? <==>
      "recommended_stage" in m &&
      m["recommended_stage"] in {JString("screened"), JString("interview"), JString("rejected")}
  {
  }

  // ---------------------------------------------------------------------
  // OutreachMessage

  datatype OutreachMessage = OutreachMessage(subject: string, body: string)

  function ValidateOutreachMessage(v: Json): (r: Option<OutreachMessage>)
    ensures r.Some? ==> v.JObject? && "subject" in v.fields && "body" in v.fields
    ensures r.Some? ==> v.fields["subject"] == JString(r.value.subject) && v.fields["body"] == JString(r.value.body)
  {
    if !v.JObject? then None
    else
      var m := v.fields;
      var subject :- Field(m, "subject", AsString);
      var body :- Field(m, "body", AsString);
      Some(OutreachMessage(subject, body))
  }

  function OutreachMessageToJson(o: OutreachMessage): Json {
    JObject(map["subject" := JString(o.subject), "body" := JString(o.body)])
  }

  lemma OutreachMessageRoundTrip(o: OutreachMessage)
    ensures ValidateOutreachMessage(OutreachMessageToJson(o)) == Some(o)
  {
  }
}
