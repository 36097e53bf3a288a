/** The constants of src/constants.py that the core uses. */
module Constants {
  import opened JsonValue

  /** The pipeline stages of an application, in funnel order. */
  const Stages: seq<string> := ["new", "screened", "interview", "offer", "hired", "rejected"]

  /** Interview stages a job gets when the form's stages JSON does not parse. */
  const DefaultInterviewStages: Json := JArray([
    JObject(map["name" := JString("Initial Screening"), "type" := JString("Screening")]),
    JObject(map["name" := JString("Technical Interview"), "type" := JString("Video Call")]),
    JObject(map["name" := JString("Culture Fit"), "type" := JString("Video Call")]),
    JObject(map["name" := JString("Final Round"), "type" := JString("On-site")])
  ])
}
