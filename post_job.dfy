/** The recruiter's job form (frontend/src/pages/recruiter/PostJob.jsx):
    the question builder, whose question objects the inputs change in place,
    and what submit sends to the post-job route. */
module PostJobPage {
  import opened Common
  import opened JsValues
  import opened JobModel
  import Seqs

  /** A question being written; `options` grows in place on "+ Add Option". */
  class QuestionDraft {
    var questionText: string
    var answerType: string
    var options: seq<string>

    /** The question `addQuestion` appends. */
    constructor()
      ensures questionText == "" && answerType == "text" && options == [""]
    {
      questionText := "";
      answerType := "text";
      options := [""];
    }
  }

  /** The two properties the question inputs update. */
  datatype QuestionKey = QuestionTextKey | AnswerTypeKey

  /** The questions as `JSON.stringify` sends them. */
  function Drafted(qs: seq<QuestionDraft>): (r: seq<Question>)
    reads qs
    ensures |r| == |qs|
    ensures forall k | 0 <= k < |qs| ::
      r[k] == Question(qs[k].questionText, qs[k].answerType, qs[k].options)
  {
    seq(|qs|, k requires 0 <= k < |qs| reads qs =>
      Question(qs[k].questionText, qs[k].answerType, qs[k].options))
  }

  /** `skills.split(",").map(s => s.trim())`: one trimmed piece per comma
      plus one. */
  function ParseSkills(s: string): (r: seq<string>)
    ensures |r| == |Split(s, ',')| == multiset(s)[','] + 1
    ensures forall k | 0 <= k < |r| :: r[k] == Trim(Split(s, ',')[k])
  {
    SplitCount(s, ',');
    var pieces := Split(s, ',');
    seq(|pieces|, k requires 0 <= k < |pieces| => Trim(pieces[k]))
  }

  /** An empty skills box does not give an empty list but a list holding
      one empty skill. */
  lemma NoSkillsIsOneEmptySkill()
    ensures ParseSkills("") == [""]
  {
    assert multiset("")[','] == 0;
    assert Split("", ',') == [""];
  }

  /** A skills text without whitespace comes back split at its commas, piece
      for piece: joining the skills with "," restores it. */
  lemma {:induction false} SkillsJoinBack(s: string)
    requires forall k | 0 <= k < |s| :: !IsWhitespace(s[k])
    ensures Join(ParseSkills(s), [',']) == s
  {
    var pieces := Split(s, ',');
    forall k | 0 <= k < |pieces|
      ensures Trim(pieces[k]) == pieces[k]
    {
      SplitPiecesWithin(s, ',', k);
      TrimNoWhitespace(pieces[k]);
    }
    assert ParseSkills(s) == pieces;
    SplitJoin(s, ',');
  }

  /** The form fields of the eligibility step. */
  datatype EligibilityInput = EligibilityInput(
    skills: string, yearOfStudy: string, mode: string,
    country: string, state: string, city: string,
    paidType: string, stipendAmount: string, duration: string)

  /** `eligibilityData`: the skills split and trimmed, the place nested. */
  function EligibilityData(e: EligibilityInput): (r: Eligibility)
    ensures r.skills == ParseSkills(e.skills)
    ensures r.location == Location(e.country, e.state, e.city)
    ensures r.yearOfStudy == e.yearOfStudy && r.mode == e.mode && r.duration == e.duration
    ensures r.paidType == e.paidType && r.stipendAmount == e.stipendAmount
  {
    Eligibility(ParseSkills(e.skills), e.yearOfStudy, e.mode, e.paidType, e.stipendAmount, e.duration,
      Location(e.country, e.state, e.city))
  }

  /** The form data submit posts. */
  datatype JobPost = JobPost(
    recruiterEmail: string, company: string, title: string, description: string,
    jobType: string, pdf: Option<string>, eligibility: Eligibility, questions: seq<Question>)

  class PostJobForm {
    var jobType: string
    var pdf: Option<string>
    var companyName: string
    var jobTitle: string
    var jobDescription: string
    var eligibility: EligibilityInput
    var questions: seq<QuestionDraft>

    /** No question object appears twice in the list. */
    predicate Valid()
      reads this
    {
      forall i, j | 0 <= i < j < |questions| :: questions[i] != questions[j]
    }

    /** The form opens as a PDF job with no questions and every field empty. */
    constructor()
      ensures Valid() && jobType == "pdf" && pdf.None? && questions == []
      ensures companyName == "" && jobTitle == "" && jobDescription == ""
      ensures eligibility == EligibilityInput("", "", "", "", "", "", "", "", "")
    {
      jobType := "pdf";
      pdf := None;
      companyName := "";
      jobTitle := "";
      jobDescription := "";
      eligibility := EligibilityInput("", "", "", "", "", "", "", "", "");
      questions := [];
    }

    /** The basic-details inputs. */
    method SetBasic(company: string, title: string, description: string)
      modifies this
      ensures companyName == company && jobTitle == title && jobDescription == description
      ensures jobType == old(jobType) && pdf == old(pdf) && eligibility == old(eligibility)
      ensures questions == old(questions)
    {
      companyName, jobTitle, jobDescription := company, title, description;
    }

    method SetJobType(kind: string)
      modifies this
      ensures jobType == kind
      ensures pdf == old(pdf) && eligibility == old(eligibility) && questions == old(questions)
      ensures companyName == old(companyName) && jobTitle == old(jobTitle) && jobDescription == old(jobDescription)
    {
      jobType := kind;
    }

    method ChoosePdf(file: Option<string>)
      modifies this
      ensures pdf == file
      ensures jobType == old(jobType) && eligibility == old(eligibility) && questions == old(questions)
      ensures companyName == old(companyName) && jobTitle == old(jobTitle) && jobDescription == old(jobDescription)
    {
      pdf := file;
    }

    method SetEligibility(e: EligibilityInput)
      modifies this
      ensures eligibility == e
      ensures jobType == old(jobType) && pdf == old(pdf) && questions == old(questions)
      ensures companyName == old(companyName) && jobTitle == old(jobTitle) && jobDescription == old(jobDescription)
    {
      eligibility := e;
    }

    /** `addQuestion`: a fresh text question with one empty option at the end. */
    method AddQuestion()
      requires Valid()
      modifies this
      ensures Valid()
      ensures |questions| == |old(questions)| + 1 && questions[..|old(questions)|] == old(questions)
      ensures fresh(questions[|questions| - 1])
      ensures Drafted(questions) == old(Drafted(questions)) + [Question("", "text", [""])]
      ensures jobType == old(jobType) && pdf == old(pdf) && eligibility == old(eligibility)
      ensures companyName == old(companyName) && jobTitle == old(jobTitle) && jobDescription == old(jobDescription)
    {
      var q := new QuestionDraft();
      questions := questions + [q];
    }

    /** `removeQuestion(index)`: every question but the `index`-th, in order. */
    method RemoveQuestion(index: int)
      requires Valid()
      modifies this
      ensures Valid()
      ensures questions == Seqs.RemoveAt(old(questions), index)
      ensures Drafted(questions) == Seqs.RemoveAt(old(Drafted(questions)), index)
      ensures jobType == old(jobType) && pdf == old(pdf) && eligibility == old(eligibility)
      ensures companyName == old(companyName) && jobTitle == old(jobTitle) && jobDescription == old(jobDescription)
    {
      questions := Seqs.RemoveAt(questions, index);
    }

    /** `updateQuestion(i, key, value)`: question `i` is changed in place, the
        others keep their contents. */
    method UpdateQuestion(i: int, key: QuestionKey, value: string)
      requires Valid() && 0 <= i < |questions|
      modifies questions[i]
      ensures Valid()
      ensures Drafted(questions) == old(Drafted(questions))[i :=
        match key
        case QuestionTextKey => old(Drafted(questions)[i]).(questionText := value)
        case AnswerTypeKey => old(Drafted(questions)[i]).(answerType := value)]
    {
      match key
      case QuestionTextKey => questions[i].questionText := value;
      case AnswerTypeKey => questions[i].answerType := value;
    }

    /** `addOption(i)`: one more empty option on question `i`. */
    method AddOption(i: int)
      requires Valid() && 0 <= i < |questions|
      modifies questions[i]
      ensures Valid()
      ensures Drafted(questions) == old(Drafted(questions))[i :=
        old(Drafted(questions)[i]).(options := old(questions[i].options) + [""])]
    {
      questions[i].options := questions[i].options + [""];
    }

    /** `updateOption(qi, oi, value)`: option `oi` of question `qi` is replaced. */
    method UpdateOption(qi: int, oi: int, value: string)
      requires Valid() && 0 <= qi < |questions| && 0 <= oi < |questions[qi].options|
      modifies questions[qi]
      ensures Valid()
      ensures Drafted(questions) == old(Drafted(questions))[qi :=
        old(Drafted(questions)[qi]).(options := old(questions[qi].options)[oi := value])]
    {
      questions[qi].options := questions[qi].options[oi := value];
    }

    /** `submit`: nothing is posted while the company or the title is empty;
        otherwise the fields, the PDF only for a PDF job that has one, the
        eligibility data and the questions. */
    method Submit(recruiterEmail: string) returns (r: Option<JobPost>)
      ensures r.None? <==> companyName == "" || jobTitle == ""
      ensures r.Some? ==> r.value.company == companyName && r.value.title == jobTitle
      ensures r.Some? ==> r.value.recruiterEmail == recruiterEmail && r.value.description == jobDescription
      ensures r.Some? ==> r.value.jobType == jobType
      ensures r.Some? ==> (r.value.pdf.Some? <==> jobType == "pdf" && pdf.Some?)
      ensures r.Some? && r.value.pdf.Some? ==> r.value.pdf == pdf
      ensures r.Some? ==> r.value.eligibility == EligibilityData(eligibility)
      ensures r.Some? ==> r.value.questions == Drafted(questions)
    {
      if companyName == "" || jobTitle == "" {
        return None;
      }
      var attached := if jobType == "pdf" && pdf.Some? then pdf else None;
      r := Some(JobPost(recruiterEmail, companyName, jobTitle, jobDescription, jobType,
        attached, EligibilityData(eligibility), Drafted(questions)));
    }
  }
}
