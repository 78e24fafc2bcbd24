/** The job record (backend/models/Job.js). */
module JobModel {
  import opened Common

  /** The two values the schema's `jobType` enum admits. */
  datatype JobType = PdfJob | QuestionsJob

  function JobTypeName(t: JobType): string {
    match t
    case PdfJob => "pdf"
    case QuestionsJob => "questions"
  }

  /** The enum validator: a string is accepted exactly when it names a job type. */
  function ParseJobType(name: string): (r: Option<JobType>)
    ensures r.Some? <==> name == "pdf" || name == "questions"
    ensures r.Some? ==> JobTypeName(r.value) == name
  {
    if name == "pdf" then Some(PdfJob)
    else if name == "questions" then Some(QuestionsJob)
    else None
  }

  /** One recruiter question: its text, the answer widget and its options. */
  datatype Question = Question(questionText: string, answerType: string, options: seq<string>)

  datatype Location = Location(country: string, state: string, city: string)

  datatype Eligibility = Eligibility(
    skills: seq<string>,
    yearOfStudy: string,
    mode: string,
    paidType: string,
    stipendAmount: string,
    duration: string,
    location: Location)

  /** A stored job. `eligibility` is None when the posting carried none (an
      empty sub-document); `questions` keeps the recruiter's order. */
  datatype Job = Job(
    recruiterEmail: string,
    company: string,
    title: string,
    description: string,
    jobType: JobType,
    pdfPath: string,
    eligibility: Option<Eligibility>,
    questions: seq<Question>)

  /** Mongoose's `required` on a String rejects a missing or empty value. */
  predicate Required(s: Option<string>) {
    s.Some? && s.value != ""
  }

  /** The stored invariant of a job: its four required strings are non-empty. */
  predicate ValidJob(j: Job) {
    j.recruiterEmail != "" && j.company != "" && j.title != "" && j.description != ""
  }

  /** `Job.create(jobData)`: refused unless the four required strings are
      present and non-empty and `jobType` is one of the enum's values. */
  function CreateJob(
    recruiterEmail: Option<string>, company: Option<string>, title: Option<string>,
    description: Option<string>, jobType: Option<string>, pdfPath: string,
    eligibility: Option<Eligibility>, questions: seq<Question>): (r: Option<Job>)
    ensures r.Some? <==>
      Required(recruiterEmail) && Required(company) && Required(title) && Required(description)
      && jobType.Some? && (jobType.value == "pdf" || jobType.value == "questions")
    ensures r.Some? ==> ValidJob(r.value) && JobTypeName(r.value.jobType) == jobType.value
    ensures r.Some? ==> r.value.pdfPath == pdfPath && r.value.questions == questions
    ensures r.Some? ==> r.value.eligibility == eligibility
    ensures r.Some? ==>
              && r.value.recruiterEmail == recruiterEmail.value && r.value.company == company.value
              && r.value.title == title.value && r.value.description == description.value
  {
    if !(Required(recruiterEmail) && Required(company) && Required(title) && Required(description))
    then None
    else if jobType.None? then None
    else match ParseJobType(jobType.value)
      case None => None
      case Some(t) =>
        Some(Job(recruiterEmail.value, company.value, title.value, description.value,
          t, pdfPath, eligibility, questions))
  }
}
