/** The five-step application wizard
    (frontend/src/pages/student/ApplyJob.jsx): the step counter, the
    education and experience repeaters, the review fallback and what submit
    sends. Repeater entries are objects that the inputs overwrite in place;
    the list itself is replaced on add and remove. */
module ApplyJobPage {
  import opened Common
  import opened JsValues
  import opened ApplicationModel
  import Seqs

  const PersonalKeys: seq<string> :=
    ["firstName", "middleName", "lastName", "email", "phone", "country", "state", "city"]
  const EducationKeys: seq<string> := ["school", "from", "to", "country", "state", "city"]
  const ExperienceKeys: seq<string> :=
    ["company", "role", "mode", "from", "to", "country", "state", "city", "description"]
  const AdditionalKeys: seq<string> := ["gender", "eligibleToWork", "hearAboutUs"]

  /** An entry with every listed property set to "". */
  function Blank(keys: seq<string>): (m: map<string, string>)
    ensures forall k :: k in m <==> k in keys
    ensures forall k | k in m :: m[k] == ""
  {
    map k | k in keys :: ""
  }

  /** One education or experience entry. */
  class Entry {
    var fields: map<string, string>

    constructor(keys: seq<string>)
      ensures fields == Blank(keys)
    {
      fields := Blank(keys);
    }
  }

  /** `value || "Not Specified"` for the string values the review shows. */
  function ReviewText(value: string): (r: string)
    ensures r == "Not Specified" <==> value == "" || value == "Not Specified"
    ensures value != "" ==> r == value
  {
    if value == "" then "Not Specified" else value
  }

  /** The review's composite values (the name "first last", the location
      "city, state" and the duration "from to to") are never empty, so they
      never fall back to "Not Specified", even when every part is empty; the
      last clause illustrates this with a name whose parts are both empty. */
  lemma CompositeReviewNeverFallsBack(first: string, last: string, city: string, state: string, from: string, to: string)
    ensures ReviewText(first + " " + last) == first + " " + last
    ensures ReviewText(city + ", " + state) == city + ", " + state
    ensures ReviewText(from + " to " + to) == from + " to " + to
    ensures ReviewText("" + " " + "") == " "
  {
    assert |first + " " + last| > 0;
    assert |city + ", " + state| > 0;
    assert |from + " to " + to| > 0;
  }

  /** `user?.email || personal.email`. */
  function SubmittedEmail(userEmail: Option<string>, personalEmail: string): (r: string)
    ensures userEmail.Some? && userEmail.value != "" ==> r == userEmail.value
    ensures userEmail.None? || userEmail.value == "" ==> r == personalEmail
    ensures r == "" <==> (userEmail.None? || userEmail.value == "") && personalEmail == ""
  {
    if userEmail.Some? && userEmail.value != "" then userEmail.value else personalEmail
  }

  /** The Remove button appears only for a list of more than one entry. */
  predicate RemoveShown<T>(entries: seq<T>) {
    |entries| > 1
  }

  /** Removing through the button never empties a list. */
  lemma RemoveKeepsOne<T>(entries: seq<T>, i: int)
    requires RemoveShown(entries) && 0 <= i < |entries|
    ensures |Seqs.RemoveAt(entries, i)| == |entries| - 1 >= 1
  {
  }

  /** The property values of each entry, in list order. */
  function Snapshot(entries: seq<Entry>): (r: seq<map<string, string>>)
    reads entries
    ensures |r| == |entries| && forall k | 0 <= k < |entries| :: r[k] == entries[k].fields
  {
    seq(|entries|, k requires 0 <= k < |entries| reads entries => entries[k].fields)
  }

  /** The keys of an object, in property order. */
  function KeysOf(entries: seq<(string, string)>): (r: seq<string>)
    ensures |r| == |entries| && forall i | 0 <= i < |entries| :: r[i] == entries[i].0
  {
    seq(|entries|, i requires 0 <= i < |entries| => entries[i].0)
  }

  /** No key occurs twice. */
  predicate DistinctKeys(entries: seq<(string, string)>) {
    forall i, j | 0 <= i < j < |entries| :: entries[i].0 != entries[j].0
  }

  /** The value of `key`, when the object has it. */
  function ValueOf(entries: seq<(string, string)>, key: string): (r: Option<string>)
    ensures r.None? <==> key !in KeysOf(entries)
    ensures r.Some? ==> exists i | 0 <= i < |entries| :: entries[i] == (key, r.value)
    decreases |entries|
  {
    if entries == [] then None
    else if entries[0].0 == key then Some(entries[0].1)
    else ValueOf(entries[1..], key)
  }

  /** `{ ...entries, [key]: value }`: an existing property keeps its place
      and takes the new value; a new one is added last. */
  function SetEntry(entries: seq<(string, string)>, key: string, value: string): (r: seq<(string, string)>)
    ensures key in KeysOf(entries) ==> KeysOf(r) == KeysOf(entries)
    ensures key !in KeysOf(entries) ==> KeysOf(r) == KeysOf(entries) + [key]
    ensures forall i | 0 <= i < |entries| && entries[i].0 != key :: r[i] == entries[i]
  {
    if key in KeysOf(entries) then
      seq(|entries|, i requires 0 <= i < |entries| => if entries[i].0 == key then (key, value) else entries[i])
    else entries + [(key, value)]
  }

  /** With distinct keys, the property at `i` is what its key reads. */
  lemma {:induction false} ValueAt(entries: seq<(string, string)>, i: int)
    requires DistinctKeys(entries) && 0 <= i < |entries|
    ensures ValueOf(entries, entries[i].0) == Some(entries[i].1)
    decreases |entries|
  {
    if i > 0 {
      assert entries[1..][i - 1] == entries[i];
      ValueAt(entries[1..], i - 1);
    }
  }

  /** After the spread, `key` reads `value`, every other key reads what it
      read before, and no key is repeated. */
  lemma SetEntryReads(entries: seq<(string, string)>, key: string, value: string, other: string)
    requires DistinctKeys(entries)
    ensures DistinctKeys(SetEntry(entries, key, value))
    ensures ValueOf(SetEntry(entries, key, value), key) == Some(value)
    ensures other != key ==> ValueOf(SetEntry(entries, key, value), other) == ValueOf(entries, other)
  {
    var r := SetEntry(entries, key, value);
    var p: int;
    if key in KeysOf(entries) {
      p :| 0 <= p < |entries| && KeysOf(entries)[p] == key;
      assert KeysOf(r) == KeysOf(entries);
      assert forall i | 0 <= i < |r| :: r[i].0 == entries[i].0 by {
        forall i | 0 <= i < |r| ensures r[i].0 == entries[i].0 {
          assert KeysOf(r)[i] == KeysOf(entries)[i];
        }
      }
    } else {
      p := |entries|;
      assert forall i | 0 <= i < |entries| :: entries[i].0 != key by {
        forall i | 0 <= i < |entries| ensures entries[i].0 != key {
          assert KeysOf(entries)[i] == entries[i].0;
        }
      }
    }
    assert r[p] == (key, value);
    ValueAt(r, p);
    if other != key && other in KeysOf(entries) {
      var q :| 0 <= q < |entries| && KeysOf(entries)[q] == other;
      ValueAt(entries, q);
      ValueAt(r, q);
    } else if other != key {
      assert other !in KeysOf(r) by {
        if key in KeysOf(entries) { } else { assert KeysOf(r) == KeysOf(entries) + [key]; }
      }
    }
  }

  /** The form data submit posts: the job, the email, the resume when one
      was chosen, and the entries. */
  datatype Submission = Submission(
    jobId: Id, studentEmail: string, resume: Option<string>,
    personal: map<string, string>, education: seq<map<string, string>>, experience: seq<map<string, string>>,
    additional: map<string, string>, recruiterQuestions: seq<(string, string)>)

  class ApplyForm {
    var step: int
    var personal: map<string, string>
    var education: seq<Entry>
    var experience: seq<Entry>
    var resumeFile: Option<string>
    var additional: map<string, string>
    var answers: seq<(string, string)>

    /** No entry object appears twice, in one list or across both, and no
        question text has two answers. */
    predicate Valid()
      reads this
    {
      && (forall i, j | 0 <= i < j < |education| :: education[i] != education[j])
      && (forall i, j | 0 <= i < j < |experience| :: experience[i] != experience[j])
      && (forall i, j | 0 <= i < |education| && 0 <= j < |experience| :: education[i] != experience[j])
      && DistinctKeys(answers)
    }

    /** The wizard opens on step 1 with one blank entry in each list. */
    constructor()
      ensures Valid() && step == 1 && resumeFile.None? && answers == []
      ensures personal == Blank(PersonalKeys) && additional == Blank(AdditionalKeys)
      ensures |education| == 1 && education[0].fields == Blank(EducationKeys)
      ensures |experience| == 1 && experience[0].fields == Blank(ExperienceKeys)
      ensures fresh(education[0]) && fresh(experience[0])
    {
      step := 1;
      personal := Blank(PersonalKeys);
      var e := new Entry(EducationKeys);
      var x := new Entry(ExperienceKeys);
      education := [e];
      experience := [x];
      resumeFile := None;
      additional := Blank(AdditionalKeys);
      answers := [];
    }

    method Next()
      modifies this
      ensures step == old(step) + 1
      ensures education == old(education) && experience == old(experience)
      ensures personal == old(personal) && resumeFile == old(resumeFile)
      ensures additional == old(additional) && answers == old(answers)
    {
      step := step + 1;
    }

    method Prev()
      modifies this
      ensures step == old(step) - 1
      ensures education == old(education) && experience == old(experience)
      ensures personal == old(personal) && resumeFile == old(resumeFile)
      ensures additional == old(additional) && answers == old(answers)
    {
      step := step - 1;
    }

    /** `addEducation`: a new list with one blank entry at the end. */
    method AddEducation()
      requires Valid()
      modifies this
      ensures Valid()
      ensures |education| == |old(education)| + 1 && education[..|old(education)|] == old(education)
      ensures fresh(education[|education| - 1]) && education[|education| - 1].fields == Blank(EducationKeys)
      ensures experience == old(experience) && step == old(step)
      ensures personal == old(personal) && resumeFile == old(resumeFile)
      ensures additional == old(additional) && answers == old(answers)
    {
      var e := new Entry(EducationKeys);
      education := education + [e];
    }

    /** `removeEducation(i)`: every entry but the `i`-th, in order. */
    method RemoveEducation(i: int)
      requires Valid()
      modifies this
      ensures Valid()
      ensures education == Seqs.RemoveAt(old(education), i)
      ensures experience == old(experience) && step == old(step)
      ensures personal == old(personal) && resumeFile == old(resumeFile)
      ensures additional == old(additional) && answers == old(answers)
    {
      education := Seqs.RemoveAt(education, i);
    }

    /** `updateEducation(i, key, val)`: the list is copied but its entries are
        shared, so the change lands in entry `i` in place; the copy holds the
        same objects and is not modelled as a new list. */
    method UpdateEducation(i: int, key: string, val: string)
      requires Valid() && 0 <= i < |education|
      modifies education[i]
      ensures Valid()
      ensures education[i].fields == old(education[i].fields)[key := val]
      ensures forall k | 0 <= k < |education| && k != i :: education[k].fields == old(education[k].fields)
      ensures forall k | 0 <= k < |experience| :: experience[k].fields == old(experience[k].fields)
    {
      education[i].fields := education[i].fields[key := val];
    }

    method AddExperience()
      requires Valid()
      modifies this
      ensures Valid()
      ensures |experience| == |old(experience)| + 1 && experience[..|old(experience)|] == old(experience)
      ensures fresh(experience[|experience| - 1]) && experience[|experience| - 1].fields == Blank(ExperienceKeys)
      ensures education == old(education) && step == old(step)
      ensures personal == old(personal) && resumeFile == old(resumeFile)
      ensures additional == old(additional) && answers == old(answers)
    {
      var x := new Entry(ExperienceKeys);
      experience := experience + [x];
    }

    method RemoveExperience(i: int)
      requires Valid()
      modifies this
      ensures Valid()
      ensures experience == Seqs.RemoveAt(old(experience), i)
      ensures education == old(education) && step == old(step)
      ensures personal == old(personal) && resumeFile == old(resumeFile)
      ensures additional == old(additional) && answers == old(answers)
    {
      experience := Seqs.RemoveAt(experience, i);
    }

    method UpdateExperience(i: int, key: string, val: string)
      requires Valid() && 0 <= i < |experience|
      modifies experience[i]
      ensures Valid()
      ensures experience[i].fields == old(experience[i].fields)[key := val]
      ensures forall k | 0 <= k < |experience| && k != i :: experience[k].fields == old(experience[k].fields)
      ensures forall k | 0 <= k < |education| :: education[k].fields == old(education[k].fields)
    {
      experience[i].fields := experience[i].fields[key := val];
    }

    method ChooseResume(file: Option<string>)
      modifies this
      ensures resumeFile == file
      ensures education == old(education) && experience == old(experience)
      ensures step == old(step) && personal == old(personal)
      ensures additional == old(additional) && answers == old(answers)
    {
      resumeFile := file;
    }

    /** The step-1 inputs: `setPersonal({ ...personal, [key]: value })`. */
    method SetPersonal(key: string, value: string)
      modifies this
      ensures personal == old(personal)[key := value]
      ensures education == old(education) && experience == old(experience) && step == old(step)
      ensures resumeFile == old(resumeFile) && additional == old(additional) && answers == old(answers)
    {
      personal := personal[key := value];
    }

    /** The step-4 inputs: `setAdditional({ ...additional, [key]: value })`. */
    method SetAdditional(key: string, value: string)
      modifies this
      ensures additional == old(additional)[key := value]
      ensures education == old(education) && experience == old(experience) && step == old(step)
      ensures resumeFile == old(resumeFile) && personal == old(personal) && answers == old(answers)
    {
      additional := additional[key := value];
    }

    /** An answer is stored under the question's text, so two questions with
        the same text share one answer; questions keep the order in which
        they were first answered. */
    method SetAnswer(questionText: string, value: string)
      requires Valid()
      modifies this
      ensures Valid()
      ensures answers == SetEntry(old(answers), questionText, value)
      ensures education == old(education) && experience == old(experience) && step == old(step)
      ensures resumeFile == old(resumeFile) && personal == old(personal) && additional == old(additional)
    {
      SetEntryReads(answers, questionText, value, questionText);
      answers := SetEntry(answers, questionText, value);
    }

    /** `submit`: the logged-in email when there is one, else the form's; the
        resume only when a file was chosen. */
    method Submit(jobId: Id, userEmail: Option<string>) returns (s: Submission)
      ensures s.jobId == jobId
      ensures s.studentEmail == SubmittedEmail(userEmail, if "email" in personal then personal["email"] else "")
      ensures s.resume == resumeFile
      ensures s.personal == personal && s.education == Snapshot(education) && s.experience == Snapshot(experience)
      ensures s.additional == additional && s.recruiterQuestions == answers
    {
      var personalEmail := if "email" in personal then personal["email"] else "";
      s := Submission(jobId, SubmittedEmail(userEmail, personalEmail), resumeFile,
        personal, Snapshot(education), Snapshot(experience), additional, answers);
    }
  }
}
