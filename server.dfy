/** The handlers of backend/server.js over an in-memory store: accounts, job
    posting, applying, the offer/rejection/response lifecycle, the PDF route
    and the message log. Database calls become reads and writes of the
    store's maps; every reply is a status code and its message. */
module Server {
  import opened Common
  import opened JsValues
  import opened ApplicationModel
  import opened JobModel
  import opened PdfRender
  import opened Lifecycle
  import Seqs

  /** The user record as the handlers write it. */
  datatype User = User(name: string, email: string, password: string, role: string)

  /** A notification; `kind` is the stored `type`, which the response handler
      copies from the request and may therefore be missing. */
  datatype Notification = Notification(
    recipientEmail: string, senderEmail: string, kind: Option<string>, message: string, read: bool)

  datatype Message = Message(senderEmail: string, receiverEmail: string, text: string)

  /** An HTTP status and the `message` of its JSON body. */
  datatype Reply = Reply(code: int, message: string)

  /** A request field holding JSON text: missing or empty, unparsable, or
      parsed. */
  datatype Payload<T> = Absent | Malformed | Parsed(value: T)

  function RoleMismatch(role: string): string {
    "This account is registered as " + role + ". Please login using correct option."
  }

  /** `data.education || []`, then the schema's `Array` cast, which wraps a
      single non-array value. */
  function AsArray(v: JsValue): (r: seq<JsValue>)
    ensures !Truthy(v) ==> r == []
    ensures v.Arr? ==> r == v.items
    ensures Truthy(v) && !v.Arr? ==> r == [v]
  {
    if !Truthy(v) then [] else if v.Arr? then v.items else [v]
  }

  /** The record `/api/apply` asks Mongoose to create from the parsed
      `application` payload `data`, as it is saved: a missing or empty
      `personal`, `additional` or `recruiterQuestions` is not stored at all. */
  function ApplicationFromRequest(jobId: Id, studentEmail: Option<string>, data: JsValue, resumePath: Option<string>): (r: Option<Application>)
    requires !IsNullish(data)
    ensures r.Some? <==> RequiredString(studentEmail)
    ensures r.Some? ==>
      var personal := Get(data, "personal");
      && r.value.jobId == jobId && r.value.status == Pending
      && r.value.studentName == Show(Or(Get(personal, "firstName"), Str(""))) + " " + Show(Or(Get(personal, "lastName"), Str("")))
      && r.value.phone == Or(Get(personal, "phone"), Str(""))
      && r.value.personal == Stored(Or(personal, Obj([])))
      && r.value.education == StoredItems(AsArray(Get(data, "education")))
      && r.value.experience == StoredItems(AsArray(Get(data, "experience")))
      && r.value.additional == Stored(Or(Get(data, "additional"), Obj([])))
      && r.value.recruiterQuestions == Stored(Or(Get(data, "recruiterQuestions"), Obj([])))
      && r.value.resume == (if resumePath.Some? then resumePath.value else "")
  {
    var personal := Get(data, "personal");
    CreateApplication(
      jobId, studentEmail,
      Show(Or(Get(personal, "firstName"), Str(""))) + " " + Show(Or(Get(personal, "lastName"), Str(""))),
      Or(Get(personal, "phone"), Str("")),
      Or(personal, Obj([])),
      AsArray(Get(data, "education")),
      AsArray(Get(data, "experience")),
      Or(Get(data, "additional"), Obj([])),
      Or(Get(data, "recruiterQuestions"), Obj([])),
      if resumePath.Some? then resumePath.value else "")
  }

  /** An application without first or last name is stored under the name " ". */
  lemma NamelessApplicant(jobId: Id, email: string)
    requires email != ""
    ensures ApplicationFromRequest(jobId, Some(email), Obj([]), None).Some?
    ensures ApplicationFromRequest(jobId, Some(email), Obj([]), None).value.studentName == " "
  {
  }

  /** `pdfPath`: set only for a `pdf` job that came with a file. */
  function PostedPdfPath(jobType: Option<string>, filename: Option<string>): (r: string)
    ensures r != "" <==> jobType == Some("pdf") && filename.Some?
    ensures r != "" ==> r == "uploads/" + filename.value
  {
    if jobType == Some("pdf") && filename.Some? then "uploads/" + filename.value else ""
  }

  /** The `eligibility` field: a parse failure is logged and an empty object
      stored, like a missing field. */
  function PostedEligibility(eligibility: Payload<Eligibility>): (r: Option<Eligibility>)
    ensures r.Some? <==> eligibility.Parsed?
  {
    if eligibility.Parsed? then Some(eligibility.value) else None
  }

  /** The `$or` query: the message involves `email` as sender or receiver. */
  predicate Involves(m: Message, email: string) {
    m.senderEmail == email || m.receiverEmail == email
  }

  /** The login reply: unknown email, then wrong password, then wrong role,
      in that order; success only when all three match. */
  function LoginReply(users: map<string, User>, email: string, password: string, role: string): (reply: Reply)
    ensures email !in users ==> reply == Reply(401, "User not found")
    ensures email in users && users[email].password != password ==> reply == Reply(401, "Invalid credentials")
    ensures email in users && users[email].password == password && users[email].role != role ==>
      reply == Reply(403, RoleMismatch(users[email].role))
    ensures reply.code == 200 <==>
      email in users && users[email].password == password && users[email].role == role
    ensures reply.code == 200 ==> reply.message == "Login successful"
  {
    if email !in users then Reply(401, "User not found")
    else if users[email].password != password then Reply(401, "Invalid credentials")
    else if users[email].role != role then Reply(403, RoleMismatch(users[email].role))
    else Reply(200, "Login successful")
  }

  /** The reply of `POST /api/apply` and the record it has Mongoose create:
      an unparsable payload answers 500, then an unknown job 404, then a null
      payload or a record the schema refuses 500, each without a record;
      otherwise the record built from the payload and 200. */
  function ApplyResult(jobs: map<Id, Job>, jobId: Option<Id>, studentEmail: Option<string>,
                       application: Payload<JsValue>, resumePath: Option<string>): (r: (Reply, Option<Application>))
    ensures application.Malformed? ==> r == (Reply(500, "Failed to apply"), None)
    ensures !application.Malformed? && (jobId.None? || jobId.value !in jobs) ==>
      r == (Reply(404, "Job not found"), None)
    ensures r.1.Some? <==> r.0.code == 200
    ensures r.0.code == 200 <==>
      && !application.Malformed? && jobId.Some? && jobId.value in jobs
      && var data := if application.Parsed? then application.value else Obj([]);
      && !IsNullish(data) && ApplicationFromRequest(jobId.value, studentEmail, data, resumePath).Some?
    ensures r.0.code != 200 ==> r.0 == Reply(500, "Failed to apply") || r.0 == Reply(404, "Job not found")
    ensures r.1.Some? ==>
      var data := if application.Parsed? then application.value else Obj([]);
      && jobId.Some? && jobId.value in jobs && RequiredString(studentEmail) && r.0 == Reply(200, "Applied successfully")
      && r.1.value == ApplicationFromRequest(jobId.value, studentEmail, data, resumePath).value
      && ValidApplication(r.1.value) && r.1.value.jobId == jobId.value && r.1.value.status == Pending
  {
    if application.Malformed? then (Reply(500, "Failed to apply"), None)
    else if jobId.None? || jobId.value !in jobs then (Reply(404, "Job not found"), None)
    else
      var data := if application.Parsed? then application.value else Obj([]);
      if IsNullish(data) then (Reply(500, "Failed to apply"), None)
      else match ApplicationFromRequest(jobId.value, studentEmail, data, resumePath)
        case None => (Reply(500, "Failed to apply"), None)
        case Some(a) => (Reply(200, "Applied successfully"), Some(a))
  }

  /** After a successful signup the same credentials log in, under the
      signed-up role only; the other users' logins are unaffected. */
  lemma SignupThenLogin(users: map<string, User>, name: string, email: string, password: string, role: string, other: string)
    requires email !in users
    ensures var after := users[email := User(name, email, password, role)];
      && LoginReply(after, email, password, role) == Reply(200, "Login successful")
      && (other != role ==> LoginReply(after, email, password, other) == Reply(403, RoleMismatch(role)))
  {
  }

  /** The applications left after `Application.deleteMany({ studentEmail })`. */
  function WithoutStudent(apps: map<Id, Application>, email: string): (r: map<Id, Application>)
    ensures forall id :: id in r <==> id in apps && apps[id].studentEmail != email
    ensures forall id | id in r :: r[id] == apps[id]
  {
    map id | id in apps && apps[id].studentEmail != email :: apps[id]
  }

  /** The jobs left after `Job.deleteMany({ recruiterEmail })`. */
  function WithoutRecruiter(jobs: map<Id, Job>, email: string): (r: map<Id, Job>)
    ensures forall id :: id in r <==> id in jobs && jobs[id].recruiterEmail != email
    ensures forall id | id in r :: r[id] == jobs[id]
  {
    map id | id in jobs && jobs[id].recruiterEmail != email :: jobs[id]
  }

  /** The database: users by email, jobs and applications by id, and the
      notification and message collections in creation order. */
  class Store {
    var users: map<string, User>
    var jobs: map<Id, Job>
    var apps: map<Id, Application>
    var notifications: seq<Notification>
    var messages: seq<Message>
    var nextId: Id

    /** Ids are issued below `nextId`; stored jobs and applications satisfy
        their schemas; every user is filed under their own email. An
        application's `jobId` may dangle once its recruiter is deleted. */
    predicate Valid()
      reads this
    {
      && (forall id | id in jobs :: id < nextId && ValidJob(jobs[id]))
      && (forall id | id in apps :: id < nextId && ValidApplication(apps[id]))
      && (forall e | e in users :: users[e].email == e)
    }

    constructor()
      ensures Valid()
      ensures users == map[] && jobs == map[] && apps == map[]
      ensures notifications == [] && messages == [] && nextId == 0
    {
      users, jobs, apps := map[], map[], map[];
      notifications, messages := [], [];
      nextId := 0;
    }

    /** `POST /api/signup`: a taken email is refused and nothing is added. */
    method Signup(name: string, email: string, password: string, role: string) returns (reply: Reply)
      requires Valid()
      modifies this
      ensures Valid()
      ensures old(email in users) ==> reply == Reply(400, "User already exists") && users == old(users)
      ensures old(email !in users) ==>
        reply == Reply(200, "Signup successful") && users == old(users)[email := User(name, email, password, role)]
      ensures jobs == old(jobs) && apps == old(apps) && nextId == old(nextId)
      ensures notifications == old(notifications) && messages == old(messages)
    {
      if email in users {
        return Reply(400, "User already exists");
      }
      users := users[email := User(name, email, password, role)];
      return Reply(200, "Signup successful");
    }

    /** `POST /api/login`: the checks run in the order of `LoginReply`. */
    method Login(email: string, password: string, role: string) returns (reply: Reply)
      requires Valid()
      ensures reply == LoginReply(users, email, password, role)
    {
      if email !in users {
        return Reply(401, "User not found");
      }
      var user := users[email];
      if user.password != password {
        return Reply(401, "Invalid credentials");
      }
      if user.role != role {
        return Reply(403, RoleMismatch(user.role));
      }
      return Reply(200, "Login successful");
    }

    /** `DELETE /api/student/account/:email`: removes the user and every
        application filed under that email, or answers 404 and deletes
        nothing. */
    method DeleteStudentAccount(email: string) returns (reply: Reply)
      requires Valid()
      modifies this
      ensures Valid()
      ensures old(email !in users) ==>
        reply == Reply(404, "User not found") && users == old(users) && apps == old(apps)
      ensures old(email in users) ==>
        && reply == Reply(200, "Account and applications deleted successfully")
        && users == old(users) - {email}
        && apps == WithoutStudent(old(apps), email)
      ensures jobs == old(jobs) && nextId == old(nextId)
      ensures notifications == old(notifications) && messages == old(messages)
    {
      if email !in users {
        return Reply(404, "User not found");
      }
      users := users - {email};
      apps := WithoutStudent(apps, email);
      return Reply(200, "Account and applications deleted successfully");
    }

    /** `DELETE /api/recruiter/delete/:email`: removes the user if present and
        every job the email posted; applications to those jobs stay. */
    method DeleteRecruiterAccount(email: string) returns (reply: Reply)
      requires Valid()
      modifies this
      ensures Valid()
      ensures reply == Reply(200, "Account and jobs deleted successfully")
      ensures users == old(users) - {email} && jobs == WithoutRecruiter(old(jobs), email)
      ensures apps == old(apps) && nextId == old(nextId)
      ensures notifications == old(notifications) && messages == old(messages)
    {
      users := users - {email};
      jobs := WithoutRecruiter(jobs, email);
      return Reply(200, "Account and jobs deleted successfully");
    }

    /** `POST /api/recruiter/post-job`: unparsable questions or a job the
        schema refuses answer 500 and store nothing. */
    method PostJob(
      recruiterEmail: Option<string>, company: Option<string>, title: Option<string>,
      description: Option<string>, jobType: Option<string>, eligibility: Payload<Eligibility>,
      questions: Payload<seq<Question>>, filename: Option<string>) returns (reply: Reply)
      requires Valid()
      modifies this
      ensures Valid()
      ensures var qs := if questions.Parsed? then questions.value else [];
        var job := CreateJob(recruiterEmail, company, title, description, jobType,
          PostedPdfPath(jobType, filename), PostedEligibility(eligibility), qs);
        if questions.Malformed? || job.None? then
          reply == Reply(500, "Failed to post job") && jobs == old(jobs) && nextId == old(nextId)
        else
          reply == Reply(200, "Job posted successfully")
          && jobs == old(jobs)[old(nextId) := job.value] && nextId == old(nextId) + 1
      ensures users == old(users) && apps == old(apps)
      ensures notifications == old(notifications) && messages == old(messages)
    {
      var eligibilityData := PostedEligibility(eligibility);
      if questions.Malformed? {
        return Reply(500, "Failed to post job");
      }
      var qs := if questions.Parsed? then questions.value else [];
      var pdfPath := "";
      if jobType == Some("pdf") && filename.Some? {
        pdfPath := "uploads/" + filename.value;
      }
      assert pdfPath == PostedPdfPath(jobType, filename);
      var job := CreateJob(recruiterEmail, company, title, description, jobType, pdfPath, eligibilityData, qs);
      if job.None? {
        return Reply(500, "Failed to post job");
      }
      assert ValidJob(job.value);
      jobs := jobs[nextId := job.value];
      nextId := nextId + 1;
      return Reply(200, "Job posted successfully");
    }

    /** `POST /api/apply`: the reply and the record are `ApplyResult`'s.
        Without a record nothing is stored; with one, it is stored under a
        fresh id and exactly one `application` notification goes to the
        job's recruiter. */
    /** `Application.create` then `Notification.create`: the record is filed
        under a fresh id and the notification appended. */
    method Record(a: Application, n: Notification)
      requires Valid() && ValidApplication(a)
      modifies this
      ensures Valid()
      ensures apps == old(apps)[old(nextId) := a] && nextId == old(nextId) + 1
      ensures notifications == old(notifications) + [n]
      ensures users == old(users) && jobs == old(jobs) && messages == old(messages)
    {
      apps := apps[nextId := a];
      nextId := nextId + 1;
      notifications := notifications + [n];
    }

    method Apply(jobId: Option<Id>, studentEmail: Option<string>, application: Payload<JsValue>, resumePath: Option<string>)
      returns (reply: Reply)
      requires Valid()
      modifies this
      ensures Valid()
      ensures reply == ApplyResult(old(jobs), jobId, studentEmail, application, resumePath).0
      ensures ApplyResult(old(jobs), jobId, studentEmail, application, resumePath).1.None? ==>
        apps == old(apps) && notifications == old(notifications) && nextId == old(nextId)
      ensures ApplyResult(old(jobs), jobId, studentEmail, application, resumePath).1.Some? ==>
        && apps == old(apps)[old(nextId) := ApplyResult(old(jobs), jobId, studentEmail, application, resumePath).1.value]
        && nextId == old(nextId) + 1
        && notifications == old(notifications) + [Notification(
             old(jobs)[jobId.value].recruiterEmail, studentEmail.value, Some("application"),
             "A student applied to your job.", false)]
      ensures users == old(users) && jobs == old(jobs) && messages == old(messages)
    {
      var result := ApplyResult(jobs, jobId, studentEmail, application, resumePath);
      if result.1.Some? {
        Record(result.1.value, Notification(
          jobs[jobId.value].recruiterEmail, studentEmail.value, Some("application"), "A student applied to your job.", false));
      }
      return result.0;
    }

    /** `send-offer`: whatever the current status, the application becomes
        `accepted` with the letter, the PDF path or "", and the time. One
        `accepted` notification goes to the student. When the job is gone,
        `populate` leaves `jobId` null; `save` still stores the change (a
        populated path is validated by its original id), and then reading
        the recruiter's email off null throws: the reply is 500, the change
        is kept and no notification is written. */
    method SendOffer(id: Id, message: string, offerPdfPath: Option<string>, now: int) returns (reply: Reply)
      requires Valid()
      modifies this
      ensures Valid()
      ensures old(id !in apps) ==>
        reply == Reply(404, "Application not found") && apps == old(apps) && notifications == old(notifications)
      ensures old(id in apps) ==>
        var a := old(apps[id]);
        && apps == old(apps)[id := a.(status := Next(a.status, Offer), offerLetter := message,
             offerPdf := if offerPdfPath.Some? then offerPdfPath.value else "", acceptedAt := Some(now))]
        && (a.jobId in jobs ==>
              reply == Reply(200, "Offer letter sent successfully")
              && notifications == old(notifications) + [Notification(
                   a.studentEmail, jobs[a.jobId].recruiterEmail, Some("accepted"),
                   "Your application has been accepted.", false)])
        && (a.jobId !in jobs ==>
              reply == Reply(500, "Failed to send offer") && notifications == old(notifications))
      ensures users == old(users) && jobs == old(jobs) && nextId == old(nextId) && messages == old(messages)
    {
      if id !in apps {
        return Reply(404, "Application not found");
      }
      var a := apps[id];
      a := a.(status := Next(a.status, Offer));
      a := a.(offerLetter := message);
      a := a.(offerPdf := if offerPdfPath.Some? then offerPdfPath.value else "");
      a := a.(acceptedAt := Some(now));
      apps := apps[id := a];
      if a.jobId !in jobs {
        return Reply(500, "Failed to send offer");
      }
      notifications := notifications + [Notification(
        a.studentEmail, jobs[a.jobId].recruiterEmail, Some("accepted"), "Your application has been accepted.", false)];
      return Reply(200, "Offer letter sent successfully");
    }

    /** `send-rejection`: like `send-offer`, with status `rejected`, the
        rejection message and its time. */
    method SendRejection(id: Id, message: string, now: int) returns (reply: Reply)
      requires Valid()
      modifies this
      ensures Valid()
      ensures old(id !in apps) ==>
        reply == Reply(404, "Application not found") && apps == old(apps) && notifications == old(notifications)
      ensures old(id in apps) ==>
        var a := old(apps[id]);
        && apps == old(apps)[id := a.(status := Next(a.status, Rejection), rejectionMessage := message,
             rejectedAt := Some(now))]
        && (a.jobId in jobs ==>
              reply == Reply(200, "Rejection message sent successfully")
              && notifications == old(notifications) + [Notification(
                   a.studentEmail, jobs[a.jobId].recruiterEmail, Some("rejected"),
                   "Your application has been rejected.", false)])
        && (a.jobId !in jobs ==>
              reply == Reply(500, "Failed to send rejection") && notifications == old(notifications))
      ensures users == old(users) && jobs == old(jobs) && nextId == old(nextId) && messages == old(messages)
    {
      if id !in apps {
        return Reply(404, "Application not found");
      }
      var a := apps[id];
      a := a.(status := Next(a.status, Rejection));
      a := a.(rejectionMessage := message);
      a := a.(rejectedAt := Some(now));
      apps := apps[id := a];
      if a.jobId !in jobs {
        return Reply(500, "Failed to send rejection");
      }
      notifications := notifications + [Notification(
        a.studentEmail, jobs[a.jobId].recruiterEmail, Some("rejected"), "Your application has been rejected.", false)];
      return Reply(200, "Rejection message sent successfully");
    }

    /** `POST /api/student/respond/:id`: the status becomes `offer_accepted`
        for the decision "accept" and `offer_rejected` for anything else,
        whatever it was; the recruiter gets one notification whose type is the
        raw decision. As in `send-offer`, a deleted job gives 500 with the
        change saved and no notification. */
    method Respond(id: Id, decision: Option<string>) returns (reply: Reply)
      requires Valid()
      modifies this
      ensures Valid()
      ensures old(id !in apps) ==>
        reply == Reply(404, "Application not found") && apps == old(apps) && notifications == old(notifications)
      ensures old(id in apps) ==>
        var a := old(apps[id]);
        && apps == old(apps)[id := a.(status := Next(a.status, StudentResponse(decision)))]
        && (a.jobId in jobs ==>
              reply == Reply(200, "Student response saved and recruiter notified.")
              && notifications == old(notifications) + [Notification(
                   jobs[a.jobId].recruiterEmail, a.studentEmail, decision,
                   a.studentEmail + (if decision == Some("accept") then " has accepted your offer." else " has rejected your offer."),
                   false)])
        && (a.jobId !in jobs ==>
              reply == Reply(500, "Error responding to offer") && notifications == old(notifications))
      ensures users == old(users) && jobs == old(jobs) && nextId == old(nextId) && messages == old(messages)
    {
      if id !in apps {
        return Reply(404, "Application not found");
      }
      var a := apps[id];
      a := a.(status := Next(a.status, StudentResponse(decision)));
      apps := apps[id := a];
      if a.jobId !in jobs {
        return Reply(500, "Error responding to offer");
      }
      var text := if decision == Some("accept") then " has accepted your offer." else " has rejected your offer.";
      notifications := notifications + [Notification(
        jobs[a.jobId].recruiterEmail, a.studentEmail, decision, a.studentEmail + text, false)];
      return Reply(200, "Student response saved and recruiter notified.");
    }

    /** `GET /api/recruiter/application/:id/pdf`: 404 for an unknown id, 500
        when rendering throws, otherwise the document's lines. */
    method PdfRoute(id: Id) returns (reply: Reply, document: seq<PdfLine>)
      requires Valid()
      ensures id !in apps ==> reply == Reply(404, "Not found") && document == []
      ensures id in apps && Rendered(apps[id]).Err? ==> reply == Reply(500, "PDF generation failed") && document == []
      ensures id in apps && Rendered(apps[id]).Ok? ==> reply.code == 200 && document == Rendered(apps[id]).value
      ensures reply.code == 500 <==>
        id in apps && (HasNullish(apps[id].education) || HasNullish(apps[id].experience))
    {
      if id !in apps {
        return Reply(404, "Not found"), [];
      }
      RenderFailsIff(apps[id]);
      var r := RenderApplication(apps[id]);
      if r.Err? {
        return Reply(500, "PDF generation failed"), [];
      }
      return Reply(200, "application.pdf"), r.value;
    }

    /** `POST /api/messages/send`: the message is stored, unvalidated. */
    method SendMessage(senderEmail: string, receiverEmail: string, text: string) returns (reply: Reply)
      requires Valid()
      modifies this
      ensures Valid()
      ensures reply.code == 201
      ensures messages == old(messages) + [Message(senderEmail, receiverEmail, text)]
      ensures users == old(users) && jobs == old(jobs) && apps == old(apps)
      ensures notifications == old(notifications) && nextId == old(nextId)
    {
      messages := messages + [Message(senderEmail, receiverEmail, text)];
      return Reply(201, text);
    }

    /** `GET /api/messages/:email`: the messages `email` sent or received, in
        the order they were stored. */
    function MessagesFor(email: string): (r: seq<Message>)
      reads this
      ensures forall m | m in r :: m in messages && Involves(m, email)
      ensures forall k | 0 <= k < |messages| :: Involves(messages[k], email) ==> messages[k] in r
      ensures forall m :: multiset(r)[m] == if Involves(m, email) then multiset(messages)[m] else 0
      ensures Seqs.IsSubsequence(r, messages)
    {
      var involved := (m: Message) => Involves(m, email);
      Seqs.FilterMultiset(involved, messages);
      Seqs.Filter(involved, messages)
    }
  }
}
