/**
 * The job form of pages/2_Jobs.py: turning the edited text fields into a job
 * record, and pre-filling those fields from a parsed job description.
 */
module JobsPage {
  import opened Wrappers
  import opened Text
  import opened JsonValue
  import opened Constants
  import opened Schemas

  /** A list item as the form keeps it: non-empty and without surrounding whitespace. */
  predicate CleanItem(t: string) {
    t != "" && IsTrimmed(t)
  }

  /** [p.strip() for p in parts if p.strip()]: the trimmed, non-empty pieces, in order. */
  function CleanItems(parts: seq<string>): (items: seq<string>)
    ensures |items| <= |parts|
    ensures forall t <- items :: CleanItem(t)
  {
    if |parts| == 0 then []
    else
      var t := Strip(parts[0]);
      (if t == "" then [] else [t]) + CleanItems(parts[1..])
  }

  /** The items are exactly the non-empty trimmed pieces. */
  lemma {:induction false} CleanItemsMembers(parts: seq<string>)
    ensures forall t <- CleanItems(parts) :: exists p <- parts :: Strip(p) == t
    ensures forall p <- parts :: Strip(p) != "" ==> Strip(p) in CleanItems(parts)
  {
    if |parts| > 0 {
      CleanItemsMembers(parts[1..]);
      assert parts == [parts[0]] + parts[1..];
    }
  }

  /** Cleaning works piece by piece, so it keeps the order of the input. */
  lemma {:induction false} CleanItemsAppend(a: seq<string>, b: seq<string>)
    ensures CleanItems(a + b) == CleanItems(a) + CleanItems(b)
  {
    if |a| > 0 {
      assert (a + b)[0] == a[0] && (a + b)[1..] == a[1..] + b;
      CleanItemsAppend(a[1..], b);
      var t := Strip(a[0]);
      var head := if t == "" then [] else [t];
      assert CleanItems(a + b) == head + CleanItems(a[1..] + b);
      assert CleanItems(a) == head + CleanItems(a[1..]);
      Regroup(head, CleanItems(a[1..]), CleanItems(b));
    } else {
      assert a + b == b;
    }
  }

  /** Pieces that are already clean all survive, unchanged. */
  lemma {:induction false} CleanItemsKeepsClean(parts: seq<string>)
    requires forall p <- parts :: CleanItem(p)
    ensures CleanItems(parts) == parts
  {
    if |parts| > 0 {
      assert parts[0] in parts;
      StripTrimmed(parts[0]);
      CleanItemsKeepsClean(parts[1..]);
    }
  }

  /** A character no piece contains is in no item either. */
  lemma StripKeepsOut(s: string, c: char)
    requires c !in s
    ensures c !in Strip(s)
  {
  }

  /** The skills typed into a comma-separated text area (lines 118-119). */
  function ParseSkills(text: string): (skills: seq<string>)
    ensures forall s <- skills :: CleanItem(s) && ',' !in s
    ensures forall s <- skills :: exists p <- Split(text, ',') :: Strip(p) == s
    ensures forall p <- Split(text, ',') :: Strip(p) != "" ==> Strip(p) in skills
  {
    var parts := Split(text, ',');
    var skills := CleanItems(parts);
    CleanItemsMembers(parts);
    assert forall s <- skills :: ',' !in s by {
      forall s <- skills
        ensures ',' !in s
      {
        var p :| p in parts && Strip(p) == s;
        StripKeepsOut(p, ',');
      }
    }
    skills
  }

  /** The responsibilities typed one per line (line 120). */
  function ParseResponsibilities(text: string): (lines: seq<string>)
    ensures forall r <- lines :: CleanItem(r) && '\n' !in r
    ensures forall r <- lines :: exists p <- Split(text, '\n') :: Strip(p) == r
    ensures forall p <- Split(text, '\n') :: Strip(p) != "" ==> Strip(p) in lines
  {
    var parts := Split(text, '\n');
    var lines := CleanItems(parts);
    CleanItemsMembers(parts);
    assert forall r <- lines :: '\n' !in r by {
      forall r <- lines
        ensures '\n' !in r
      {
        var p :| p in parts && Strip(p) == r;
        StripKeepsOut(p, '\n');
      }
    }
    lines
  }

  /** ", ".join(skills): how a parsed skill list pre-fills its text area (lines 83, 86). */
  function PrefillSkills(skills: seq<string>): (text: string)
    ensures |skills| >= 1 && (forall s <- skills :: ',' !in s) ==> Split(text, ',') == Spaced(skills)
  {
    if |skills| >= 1 then
      JoinCommaSpace(skills);
      assert [','] == ",";
      SplitJoinWhenFree(Spaced(skills), ',');
      Join(skills, ", ")
    else
      Join(skills, ", ")
  }

  /** "\n".join(responsibilities) (line 89). */
  function PrefillResponsibilities(responsibilities: seq<string>): (text: string)
    ensures |responsibilities| >= 1 && (forall r <- responsibilities :: '\n' !in r) ==>
              Split(text, '\n') == responsibilities
  {
    assert ['\n'] == "\n";
    SplitJoinWhenFree(responsibilities, '\n');
    Join(responsibilities, "\n")
  }

  /** Splitting a join of separator-free pieces gives the pieces back. */
  lemma SplitJoinWhenFree(parts: seq<string>, sep: char)
    ensures |parts| >= 1 && (forall p <- parts :: sep !in p) ==> Split(Join(parts, [sep]), sep) == parts
  {
    if |parts| >= 1 && (forall p <- parts :: sep !in p) {
      SplitJoin(parts, sep);
    }
  }

  /** The pieces a ", "-joined list splits into on ",": every item after the first keeps the space. */
  function Spaced(xs: seq<string>): (parts: seq<string>)
    requires |xs| >= 1
    ensures |parts| == |xs| && parts[0] == xs[0]
    ensures forall i :: 1 <= i < |xs| ==> parts[i] == " " + xs[i]
  {
    [xs[0]] + seq(|xs| - 1, i requires 0 <= i < |xs| - 1 => " " + xs[i + 1])
  }

  lemma JoinPrependFirst(p: string, zs: seq<string>, sep: string)
    requires |zs| >= 1
    ensures p + Join(zs, sep) == Join([p + zs[0]] + zs[1..], sep)
  {
    var ys := [p + zs[0]] + zs[1..];
    assert ys[1..] == zs[1..];
    if |zs| > 1 {
      assert p + Join(zs, sep) == (p + zs[0]) + sep + Join(zs[1..], sep);
    }
  }

  lemma {:induction false} JoinCommaSpace(xs: seq<string>)
    requires |xs| >= 1
    ensures Join(xs, ", ") == Join(Spaced(xs), ",")
  {
    if |xs| > 1 {
      var tail := xs[1..];
      JoinCommaSpace(tail);
      var spacedTail := Spaced(tail);
      JoinPrependFirst(" ", spacedTail, ",");
      assert [" " + spacedTail[0]] + spacedTail[1..] == Spaced(xs)[1..];
      assert Join(xs, ", ") == xs[0] + ", " + Join(tail, ", ");
      assert Join(Spaced(xs), ",") == xs[0] + "," + Join(Spaced(xs)[1..], ",");
    }
  }

  lemma StripSpacedItem(x: string)
    requires CleanItem(x)
    ensures Strip(" " + x) == x
  {
    assert AllSpace(" ") by {
      assert IsSpace(' ');
    }
    StripPrependSpace(" ", x);
    StripTrimmed(x);
  }

  /** Trimming each piece of Spaced(xs) gives the item back, so cleaning the pieces gives xs. */
  lemma CleanSpaced(xs: seq<string>)
    requires |xs| >= 1
    requires forall x <- xs :: CleanItem(x)
    ensures CleanItems(Spaced(xs)) == xs
  {
    var parts := Spaced(xs);
    forall i | 0 <= i < |parts|
      ensures Strip(parts[i]) == xs[i]
    {
      assert xs[i] in xs;
      if i == 0 {
        StripTrimmed(xs[0]);
      } else {
        StripSpacedItem(xs[i]);
      }
    }
    CleanAfterStrip(parts, xs);
  }

  lemma {:induction false} CleanAfterStrip(parts: seq<string>, xs: seq<string>)
    requires |parts| == |xs|
    requires forall i :: 0 <= i < |parts| ==> Strip(parts[i]) == xs[i]
    requires forall x <- xs :: CleanItem(x)
    ensures CleanItems(parts) == xs
  {
    if |parts| > 0 {
      assert xs[0] in xs;
      CleanAfterStrip(parts[1..], xs[1..]);
      assert xs == [xs[0]] + xs[1..];
    }
  }

  /** Splitting the pre-filled skills on "," and trimming gives the list back. */
  lemma SkillsRoundTrip(skills: seq<string>)
    requires forall s <- skills :: CleanItem(s) && ',' !in s
    ensures ParseSkills(PrefillSkills(skills)) == skills
  {
    if |skills| == 0 {
      StripTrimmed("");
      assert Split("", ',') == [""];
    } else {
      JoinCommaSpace(skills);
      var parts := Spaced(skills);
      forall p <- parts
        ensures ',' !in p
      {
      }
      SplitJoin(parts, ',');
      assert [','] == ",";
      CleanSpaced(skills);
    }
  }

  /** Splitting the pre-filled responsibilities on newlines and trimming gives the list back. */
  lemma ResponsibilitiesRoundTrip(responsibilities: seq<string>)
    requires forall r <- responsibilities :: CleanItem(r) && '\n' !in r
    ensures ParseResponsibilities(PrefillResponsibilities(responsibilities)) == responsibilities
  {
    if |responsibilities| == 0 {
      StripTrimmed("");
      assert Split("", '\n') == [""];
    } else {
      SplitJoin(responsibilities, '\n');
      assert ['\n'] == "\n";
      CleanItemsKeepsClean(responsibilities);
    }
  }

  /** Submitting the skills field unedited a second time changes nothing. */
  lemma SkillsStable(text: string)
    ensures ParseSkills(PrefillSkills(ParseSkills(text))) == ParseSkills(text)
  {
    SkillsRoundTrip(ParseSkills(text));
  }

  /** The interview stages: the parsed JSON text, or the defaults when it does not parse (lines 103-106). */
  function InterviewStages(stagesInput: string, parseJson: string -> Option<Json>): (stages: Json)
    ensures parseJson(stagesInput).None? ==> stages == DefaultInterviewStages
    ensures parseJson(stagesInput).Some? ==> stages == parseJson(stagesInput).value
    ensures stages == DefaultInterviewStages || parseJson(stagesInput) == Some(stages)
  {
    match parseJson(stagesInput)
    case Some(stages) => stages
    case None => DefaultInterviewStages
  }

  /** The text fields of the create-job form as submitted. */
  datatype JobForm = JobForm(
    title: string,
    team: string,
    location: string,
    employmentType: string,
    minComp: real,
    maxComp: real,
    mustSkills: string,
    niceSkills: string,
    responsibilities: string,
    stagesInput: string)

  /** The job record handed to create_job. */
  datatype NewJob = NewJob(
    createdBy: string,
    title: string,
    team: string,
    location: string,
    employmentType: string,
    compRangeMin: real,
    compRangeMax: real,
    mustHaveSkills: seq<string>,
    niceToHaveSkills: seq<string>,
    responsibilities: seq<string>,
    interviewStages: Json,
    jdText: string,
    status: string)

  const TitleRequired := "Title is required"

  /**
   * Submitting the form: an empty title is refused before anything is built;
   * otherwise the record built for create_job. `jdTextFull` is the
   * session's full job-description text, if it holds one.
   */
  function SubmitJobForm(userId: string, form: JobForm, jdTextFull: Option<string>, jdTextInput: string,
                         parseJson: string -> Option<Json>): (r: Result<NewJob, string>)
    ensures r.Failure? <==> form.title == ""
    ensures r.Failure? ==> r.error == TitleRequired
    ensures r.Success? ==> r.value.status == "open" && r.value.title == form.title && r.value.createdBy == userId
    ensures r.Success? ==>
              && (forall s <- r.value.mustHaveSkills :: CleanItem(s))
              && (forall s <- r.value.niceToHaveSkills :: CleanItem(s))
              && (forall s <- r.value.responsibilities :: CleanItem(s))
    ensures r.Success? ==> && r.value.team == form.team && r.value.location == form.location
                           && r.value.employmentType == form.employmentType
                           && r.value.compRangeMin == form.minComp && r.value.compRangeMax == form.maxComp
    ensures r.Success? ==> && r.value.mustHaveSkills == ParseSkills(form.mustSkills)
                           && r.value.niceToHaveSkills == ParseSkills(form.niceSkills)
                           && r.value.responsibilities == ParseResponsibilities(form.responsibilities)
    ensures r.Success? && parseJson(form.stagesInput).None? ==> r.value.interviewStages == DefaultInterviewStages
    ensures r.Success? && parseJson(form.stagesInput).Some? ==>
              r.value.interviewStages == parseJson(form.stagesInput).value
    ensures r.Success? ==> r.value.jdText == (if jdTextFull.Some? then jdTextFull.value else jdTextInput)
  {
    if form.title == "" then Failure(TitleRequired)
    else
      Success(NewJob(
        userId, form.title, form.team, form.location, form.employmentType, form.minComp, form.maxComp,
        ParseSkills(form.mustSkills), ParseSkills(form.niceSkills), ParseResponsibilities(form.responsibilities),
        InterviewStages(form.stagesInput, parseJson),
        match jdTextFull case Some(t) => t case None => jdTextInput,
        "open"))
  }

  /** A title of blanks is not empty, so it passes the check. */
  lemma BlankTitleAccepted(userId: string, form: JobForm, jdTextFull: Option<string>, jdTextInput: string,
                           parseJson: string -> Option<Json>)
    requires form.title == " "
    ensures SubmitJobForm(userId, form, jdTextFull, jdTextInput, parseJson).Success?
  {
  }

  /**
   * A form whose list fields still hold what the parsed job pre-filled keeps
   * the parsed lists, provided their items are clean and hold no separator.
   */
  lemma PrefilledListsSurvive(userId: string, form: JobForm, parsed: JobParsing, jdTextFull: Option<string>,
                              jdTextInput: string, parseJson: string -> Option<Json>)
    requires form.title != ""
    requires form.mustSkills == PrefillSkills(parsed.must_have_skills)
    requires form.niceSkills == PrefillSkills(parsed.nice_to_have_skills)
    requires form.responsibilities == PrefillResponsibilities(parsed.responsibilities)
    requires forall s <- parsed.must_have_skills :: CleanItem(s) && ',' !in s
    requires forall s <- parsed.nice_to_have_skills :: CleanItem(s) && ',' !in s
    requires forall r <- parsed.responsibilities :: CleanItem(r) && '\n' !in r
    ensures var job := SubmitJobForm(userId, form, jdTextFull, jdTextInput, parseJson).value;
            && job.mustHaveSkills == parsed.must_have_skills
            && job.niceToHaveSkills == parsed.nice_to_have_skills
            && job.responsibilities == parsed.responsibilities
  {
    SkillsRoundTrip(parsed.must_have_skills);
    SkillsRoundTrip(parsed.nice_to_have_skills);
    ResponsibilitiesRoundTrip(parsed.responsibilities);
  }
}
