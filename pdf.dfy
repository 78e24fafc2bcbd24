/** The text that the application-PDF route (backend/server.js) writes for one
    stored application: the sequence of lines, in order, with fonts, spacing and
    colours left aside. Every optional line is gated by `isFilled`. */
module PdfRender {
  import opened Common
  import opened JsValues
  import opened ApplicationModel
  import Seqs

  /** One line of the document; the resume line also carries a link target. */
  datatype PdfLine = Text(text: string) | Link(text: string, url: string)

  /** Reading a property of a null or undefined education or experience entry
      throws, and the route answers 500. */
  datatype RenderError = NullishEntry

  /** A property printed as "<name>: <value>". */
  datatype Field = Field(key: string, name: string)

  const PersonalFields: seq<Field> := [
    Field("firstName", "First Name"), Field("middleName", "Middle Name"),
    Field("lastName", "Last Name"), Field("email", "Email"), Field("phone", "Phone"),
    Field("country", "Country"), Field("state", "State"), Field("city", "City")]

  /** An education entry is printed when one of these is filled. */
  const EducationKeys: seq<string> := ["school", "from", "to"]
  const EducationFields: seq<Field> := [
    Field("school", "School/College"), Field("from", "From"), Field("to", "To"),
    Field("country", "Country"), Field("state", "State"), Field("city", "City")]

  /** An experience entry is printed when one of these is filled. */
  const ExperienceKeys: seq<string> := ["company", "role", "description"]
  const ExperienceFields: seq<Field> := [
    Field("company", "Company"), Field("role", "Role"), Field("mode", "Mode"),
    Field("from", "From"), Field("to", "To"), Field("country", "Country"),
    Field("state", "State"), Field("city", "City"), Field("description", "Description")]

  /** Of all additional answers only these three are ever printed. */
  const AdditionalFields: seq<Field> := [
    Field("gender", "Gender"), Field("eligibleToWork", "Eligible to work"),
    Field("hearAboutUs", "Hear about us from")]

  const ResumeBaseUrl: string := "http://localhost:5000/"

  function Tag(f: Field): string {
    f.name + ": "
  }

  function FieldLine(v: JsValue, f: Field): PdfLine {
    Text(Tag(f) + Show(Get(v, f.key)))
  }

  /** The field lines of object `v`, each present only when its value is filled. */
  function FieldLines(v: JsValue, fields: seq<Field>): seq<PdfLine>
    decreases |fields|
  {
    if fields == [] then []
    else
      var first := if IsFilled(Get(v, fields[0].key)) then [FieldLine(v, fields[0])] else [];
      first + FieldLines(v, fields[1..])
  }

  /** The field lines as they would read if every field were filled. */
  function AllFieldLines(v: JsValue, fields: seq<Field>): (r: seq<PdfLine>)
    ensures |r| == |fields| && forall i | 0 <= i < |fields| :: r[i] == FieldLine(v, fields[i])
  {
    seq(|fields|, i requires 0 <= i < |fields| => FieldLine(v, fields[i]))
  }

  /** `lines` holds a line introduced by the name of `f`. */
  predicate HasLineFor(lines: seq<PdfLine>, f: Field) {
    exists j | 0 <= j < |lines| :: lines[j].Text? && Tag(f) <= lines[j].text
  }

  /** No field's "name: " begins another's, so a line names its field. */
  predicate PrefixFree(fields: seq<Field>) {
    forall i, j | 0 <= i < |fields| && 0 <= j < |fields| && i != j :: !(Tag(fields[i]) <= Tag(fields[j]))
  }

  /** `isFilled(e.k1) || isFilled(e.k2) || ...` */
  predicate AnyFilled(v: JsValue, keys: seq<string>) {
    exists k | 0 <= k < |keys| :: IsFilled(Get(v, keys[k]))
  }

  /** The printed lines of one education or experience entry. */
  function Block(e: JsValue, keys: seq<string>, fields: seq<Field>): seq<PdfLine> {
    if AnyFilled(e, keys) then FieldLines(e, fields) else []
  }

  /** `prefix` followed by the lines of `rest`, or the failure of `rest`. */
  function Then(prefix: seq<PdfLine>, rest: Result<seq<PdfLine>, RenderError>): Result<seq<PdfLine>, RenderError> {
    match rest
    case Ok(lines) => Ok(prefix + lines)
    case Err(e) => Err(e)
  }

  /** `entries.some(e => isFilled(e.k1) || ...)`: stops at the first entry with
      a filled key; throws at a null or undefined entry met before it. */
  function SomeKeyed(entries: seq<JsValue>, keys: seq<string>): Result<bool, RenderError>
    decreases |entries|
  {
    if entries == [] then Ok(false)
    else if IsNullish(entries[0]) then Err(NullishEntry)
    else if AnyFilled(entries[0], keys) then Ok(true)
    else SomeKeyed(entries[1..], keys)
  }

  /** `entries.forEach(...)` printing each entry's block; throws at a null or
      undefined entry. */
  function Blocks(entries: seq<JsValue>, keys: seq<string>, fields: seq<Field>): Result<seq<PdfLine>, RenderError>
    decreases |entries|
  {
    if entries == [] then Ok([])
    else if IsNullish(entries[0]) then Err(NullishEntry)
    else Then(Block(entries[0], keys, fields), Blocks(entries[1..], keys, fields))
  }

  /** The education or experience section. */
  function Section(heading: string, entries: seq<JsValue>, keys: seq<string>, fields: seq<Field>): Result<seq<PdfLine>, RenderError> {
    if |entries| == 0 then Ok([])
    else match SomeKeyed(entries, keys)
      case Err(e) => Err(e)
      case Ok(has) => if has then Then([Text(heading)], Blocks(entries, keys, fields)) else Ok([])
  }

  /** The additional-questions section: its heading appears when any answer at
      all is filled, but only three answers are printed. */
  function AdditionalSection(additional: JsValue): seq<PdfLine> {
    var data := Or(additional, Obj([]));
    var entries := Entries(data);
    if exists k | 0 <= k < |entries| :: IsFilled(entries[k].1)
    then [Text("ADDITIONAL QUESTIONS")] + FieldLines(data, AdditionalFields)
    else []
  }

  /** Question/answer pairs with a filled answer, numbered from `count` on. */
  function QuestionLines(entries: seq<(string, JsValue)>, count: nat): seq<PdfLine>
    decreases |entries|
  {
    if entries == [] then []
    else if IsFilled(entries[0].1) then
      [Text("Q" + NatToString(count) + ": " + entries[0].0), Text("Answer: " + Show(entries[0].1))]
      + QuestionLines(entries[1..], count + 1)
    else QuestionLines(entries[1..], count)
  }

  predicate AnswerFilled(entry: (string, JsValue)) {
    IsFilled(entry.1)
  }

  /** The answers that get printed, in order. */
  function FilledAnswers(entries: seq<(string, JsValue)>): seq<(string, JsValue)> {
    Seqs.Filter(AnswerFilled, entries)
  }

  const NoQuestionsLine: PdfLine := Text("No job-specific questions for this application")
  const NoAnswersLine: PdfLine := Text("No answers provided")

  /** The job-specific section, whose heading is always printed. */
  function QuestionsSection(recruiterQuestions: JsValue): seq<PdfLine> {
    var entries := Entries(Or(recruiterQuestions, Obj([])));
    if |entries| == 0 then [Text("JOB SPECIFIC QUESTIONS"), NoQuestionsLine]
    else
      var fallback := if FilledAnswers(entries) == [] then [NoAnswersLine] else [];
      [Text("JOB SPECIFIC QUESTIONS")] + QuestionLines(entries, 1) + fallback
  }

  function ResumeSection(resume: string): seq<PdfLine> {
    if IsFilled(Str(resume))
    then [Text("RESUME"), Link("Click here to view resume: " + resume, ResumeBaseUrl + resume)]
    else []
  }

  function TitleLines(a: Application): seq<PdfLine> {
    [Text("Application Details"), Text("Applicant: " + a.studentName),
     Text("Email: " + a.studentEmail), Text("Status: " + StatusName(a.status))]
  }

  /** The title block and the personal details. */
  function HeadLines(a: Application): seq<PdfLine> {
    TitleLines(a) + [Text("PERSONAL DETAILS")] + FieldLines(Or(a.personal, Obj([])), PersonalFields)
  }

  /** Everything after the experience section. */
  function ClosingLines(a: Application): seq<PdfLine> {
    AdditionalSection(a.additional) + QuestionsSection(a.recruiterQuestions) + ResumeSection(a.resume)
  }

  /** The whole document for `a`, or the failure that aborts it. */
  function Rendered(a: Application): Result<seq<PdfLine>, RenderError> {
    match Section("EDUCATION", a.education, EducationKeys, EducationFields)
    case Err(e) => Err(e)
    case Ok(education) =>
      match Section("EXPERIENCE", a.experience, ExperienceKeys, ExperienceFields)
      case Err(e) => Err(e)
      case Ok(experience) => Ok(HeadLines(a) + education + experience + ClosingLines(a))
  }

  // ---------------------------------------------------------------------------
  // Field lines
  // ---------------------------------------------------------------------------

  /** The printed field lines keep the fixed field order. */
  lemma {:induction false} FieldLinesInOrder(v: JsValue, fields: seq<Field>)
    ensures Seqs.IsSubsequence(FieldLines(v, fields), AllFieldLines(v, fields))
    decreases |fields|
  {
    if fields != [] {
      FieldLinesInOrder(v, fields[1..]);
      var all := AllFieldLines(v, fields);
      assert all[1..] == AllFieldLines(v, fields[1..]);
      var rest := FieldLines(v, fields[1..]);
      if IsFilled(Get(v, fields[0].key)) {
        assert FieldLines(v, fields) == [all[0]] + rest;
        assert ([all[0]] + rest)[1..] == rest;
      } else {
        assert FieldLines(v, fields) == rest;
        Seqs.SubsequenceSkip(rest, all);
      }
    }
  }

  /** The printed field lines are exactly the lines of the filled fields. */
  lemma {:induction false} FieldLinesExactly(v: JsValue, fields: seq<Field>)
    ensures forall i | 0 <= i < |fields| && IsFilled(Get(v, fields[i].key)) ::
      FieldLine(v, fields[i]) in FieldLines(v, fields)
    ensures forall l | l in FieldLines(v, fields) ::
      exists i | 0 <= i < |fields| :: l == FieldLine(v, fields[i]) && IsFilled(Get(v, fields[i].key))
    decreases |fields|
  {
    if fields != [] {
      FieldLinesExactly(v, fields[1..]);
      forall i | 1 <= i < |fields| ensures fields[i] == fields[1..][i - 1] { }
      forall l | l in FieldLines(v, fields[1..])
        ensures exists i | 0 <= i < |fields| :: l == FieldLine(v, fields[i]) && IsFilled(Get(v, fields[i].key))
      {
        var i :| 0 <= i < |fields[1..]| && l == FieldLine(v, fields[1..][i]) && IsFilled(Get(v, fields[1..][i].key));
        assert fields[1..][i] == fields[i + 1];
      }
    }
  }

  /** When "name: " is a prefix of "name': " + s, one tag begins the other. */
  lemma TagsOverlap(t: string, u: string, s: string)
    requires t <= u + s
    ensures t <= u || u <= t
  {
    if |t| <= |u| {
      assert t == (u + s)[..|t|] == u[..|t|];
    } else {
      assert u == (u + s)[..|u|] == t[..|u|];
    }
  }

  /** With prefix-free names, field `i` has a line exactly when its value is
      filled. */
  lemma FieldShownIff(v: JsValue, fields: seq<Field>, i: int)
    requires PrefixFree(fields) && 0 <= i < |fields|
    ensures HasLineFor(FieldLines(v, fields), fields[i]) <==> IsFilled(Get(v, fields[i].key))
  {
    var lines := FieldLines(v, fields);
    FieldLinesExactly(v, fields);
    if IsFilled(Get(v, fields[i].key)) {
      var l := FieldLine(v, fields[i]);
      var j :| 0 <= j < |lines| && lines[j] == l;
      assert Tag(fields[i]) <= l.text;
    }
    if HasLineFor(lines, fields[i]) {
      var j :| 0 <= j < |lines| && lines[j].Text? && Tag(fields[i]) <= lines[j].text;
      assert lines[j] in lines;
      var k :| 0 <= k < |fields| && lines[j] == FieldLine(v, fields[k]) && IsFilled(Get(v, fields[k].key));
      if k != i {
        TagsOverlap(Tag(fields[i]), Tag(fields[k]), Show(Get(v, fields[k].key)));
        assert false;
      }
    }
  }

  /** Distinct names without a colon give prefix-free tags. */
  lemma PrefixFreeByNames(fields: seq<Field>)
    requires forall i, k | 0 <= i < |fields| && 0 <= k < |fields[i].name| :: fields[i].name[k] != ':'
    requires forall i, j | 0 <= i < j < |fields| :: fields[i].name != fields[j].name
    ensures PrefixFree(fields)
  {
    forall i, j | 0 <= i < |fields| && 0 <= j < |fields| && i != j
      ensures !(Tag(fields[i]) <= Tag(fields[j]))
    {
      var m, n := fields[i].name, fields[j].name;
      if |m| < |n| {
        assert Tag(fields[i])[|m|] == ':' != n[|m|] == Tag(fields[j])[|m|];
      } else if |m| == |n| {
        assert Tag(fields[i])[..|m|] == m != n == Tag(fields[j])[..|m|];
      }
    }
  }

  /** Every line of the document names its field unambiguously. */
  lemma FieldNamesPrefixFree()
    ensures PrefixFree(PersonalFields)
    ensures PrefixFree(EducationFields)
    ensures PrefixFree(ExperienceFields)
    ensures PrefixFree(AdditionalFields)
  {
    PersonalNamesPrefixFree();
    EducationNamesPrefixFree();
    ExperienceNamesPrefixFree();
    AdditionalNamesPrefixFree();
  }

  lemma PersonalNamesPrefixFree()
    ensures PrefixFree(PersonalFields)
  {
    PrefixFreeByNames(PersonalFields);
  }

  lemma EducationNamesPrefixFree()
    ensures PrefixFree(EducationFields)
  {
    PrefixFreeByNames(EducationFields);
  }

  lemma ExperienceNamesPrefixFree()
    ensures PrefixFree(ExperienceFields)
  {
    PrefixFreeByNames(ExperienceFields);
  }

  lemma AdditionalNamesPrefixFree()
    ensures PrefixFree(AdditionalFields)
  {
    PrefixFreeByNames(AdditionalFields);
  }

  // ---------------------------------------------------------------------------
  // Education and experience sections
  // ---------------------------------------------------------------------------

  predicate HasNullish(entries: seq<JsValue>) {
    exists i | 0 <= i < |entries| :: IsNullish(entries[i])
  }

  predicate HasKeyed(entries: seq<JsValue>, keys: seq<string>) {
    exists i | 0 <= i < |entries| :: AnyFilled(entries[i], keys)
  }

  /** A null or undefined entry has no filled key. */
  lemma NullishNotKeyed(e: JsValue, keys: seq<string>)
    requires IsNullish(e)
    ensures !AnyFilled(e, keys)
  {
  }

  /** Printing the blocks fails exactly when some entry is null or undefined. */
  lemma {:induction false} BlocksFailIff(entries: seq<JsValue>, keys: seq<string>, fields: seq<Field>)
    ensures Blocks(entries, keys, fields).Err? <==> HasNullish(entries)
    decreases |entries|
  {
    if entries != [] && !IsNullish(entries[0]) {
      BlocksFailIff(entries[1..], keys, fields);
      forall i | 1 <= i < |entries| ensures entries[i] == entries[1..][i - 1] { }
    }
  }

  /** The `some` scan answers false exactly when every entry is an object
      without a filled key, and fails only at a null or undefined entry. */
  lemma {:induction false} SomeKeyedSpec(entries: seq<JsValue>, keys: seq<string>)
    ensures SomeKeyed(entries, keys) == Ok(false) <==> !HasNullish(entries) && !HasKeyed(entries, keys)
    ensures SomeKeyed(entries, keys) == Ok(true) ==> HasKeyed(entries, keys)
    ensures SomeKeyed(entries, keys).Err? ==> HasNullish(entries)
    decreases |entries|
  {
    if entries != [] {
      if IsNullish(entries[0]) {
        NullishNotKeyed(entries[0], keys);
      } else if !AnyFilled(entries[0], keys) {
        SomeKeyedSpec(entries[1..], keys);
        forall i | 1 <= i < |entries| ensures entries[i] == entries[1..][i - 1] { }
      }
    }
  }

  /** A section fails exactly when one of its entries is null or undefined. */
  lemma SectionFailsIff(heading: string, entries: seq<JsValue>, keys: seq<string>, fields: seq<Field>)
    ensures Section(heading, entries, keys, fields).Err? <==> HasNullish(entries)
  {
    SomeKeyedSpec(entries, keys);
    BlocksFailIff(entries, keys, fields);
  }

  /** A section prints anything, heading first, exactly when no entry is null
      or undefined and some entry has a filled key. */
  lemma SectionShownIff(heading: string, entries: seq<JsValue>, keys: seq<string>, fields: seq<Field>)
    ensures var r := Section(heading, entries, keys, fields);
      r.Ok? && r.value != [] <==> !HasNullish(entries) && HasKeyed(entries, keys)
    ensures var r := Section(heading, entries, keys, fields);
      r.Ok? && r.value != [] ==> r.value[0] == Text(heading)
  {
    SomeKeyedSpec(entries, keys);
    BlocksFailIff(entries, keys, fields);
  }

  /** The entries that matter to a section: objects with a filled key, and the
      null or undefined ones that make it fail. */
  function KeptFor(keys: seq<string>): JsValue -> bool {
    e => IsNullish(e) || AnyFilled(e, keys)
  }

  lemma {:induction false} BlocksSkipUnkeyed(entries: seq<JsValue>, keys: seq<string>, fields: seq<Field>)
    ensures Blocks(entries, keys, fields) == Blocks(Seqs.Filter(KeptFor(keys), entries), keys, fields)
    decreases |entries|
  {
    if entries != [] && !IsNullish(entries[0]) {
      BlocksSkipUnkeyed(entries[1..], keys, fields);
      var kept := Seqs.Filter(KeptFor(keys), entries);
      if AnyFilled(entries[0], keys) {
        assert kept[1..] == Seqs.Filter(KeptFor(keys), entries[1..]);
      } else {
        assert !KeptFor(keys)(entries[0]);
        assert kept == Seqs.Filter(KeptFor(keys), entries[1..]);
        var rest := Blocks(entries[1..], keys, fields);
        assert Block(entries[0], keys, fields) == [];
        assert rest.Ok? ==> [] + rest.value == rest.value;
      }
    }
  }

  lemma {:induction false} SomeKeyedSkipUnkeyed(entries: seq<JsValue>, keys: seq<string>)
    ensures SomeKeyed(entries, keys) == SomeKeyed(Seqs.Filter(KeptFor(keys), entries), keys)
    decreases |entries|
  {
    if entries != [] && !IsNullish(entries[0]) && !AnyFilled(entries[0], keys) {
      SomeKeyedSkipUnkeyed(entries[1..], keys);
    }
  }

  /** Entries without a filled key contribute nothing: the section is the
      same with them removed. */
  lemma SectionSkipsUnkeyed(heading: string, entries: seq<JsValue>, keys: seq<string>, fields: seq<Field>)
    ensures Section(heading, entries, keys, fields)
         == Section(heading, Seqs.Filter(KeptFor(keys), entries), keys, fields)
  {
    SomeKeyedSkipUnkeyed(entries, keys);
    BlocksSkipUnkeyed(entries, keys, fields);
  }

  // ---------------------------------------------------------------------------
  // Job-specific questions
  // ---------------------------------------------------------------------------

  /** Filled answers are printed in order as numbered pairs; unanswered
      questions neither print nor consume a number. */
  lemma {:induction false} QuestionNumbering(entries: seq<(string, JsValue)>, count: nat)
    ensures |QuestionLines(entries, count)| == 2 * |FilledAnswers(entries)|
    ensures forall k | 0 <= k < |FilledAnswers(entries)| ::
      QuestionLines(entries, count)[2 * k] == Text("Q" + NatToString(count + k) + ": " + FilledAnswers(entries)[k].0)
      && QuestionLines(entries, count)[2 * k + 1] == Text("Answer: " + Show(FilledAnswers(entries)[k].1))
    decreases |entries|
  {
    if entries != [] {
      if IsFilled(entries[0].1) {
        QuestionNumbering(entries[1..], count + 1);
        NumberingStep(entries, count);
      } else {
        QuestionNumbering(entries[1..], count);
        assert FilledAnswers(entries) == FilledAnswers(entries[1..]);
      }
    }
  }

  /** One turn of the `for…of`: a filled answer appends its numbered pair and
      advances the number; an unfilled one appends nothing. */
  lemma QuestionsUnfold(entries: seq<(string, JsValue)>, i: int, lines: seq<PdfLine>, count: nat)
    requires 0 <= i < |entries|
    ensures IsFilled(entries[i].1) ==>
      lines + QuestionLines(entries[i..], count)
        == (lines + [Text("Q" + NatToString(count) + ": " + entries[i].0), Text("Answer: " + Show(entries[i].1))])
           + QuestionLines(entries[i + 1..], count + 1)
    ensures !IsFilled(entries[i].1) ==> QuestionLines(entries[i..], count) == QuestionLines(entries[i + 1..], count)
  {
    assert entries[i..][0] == entries[i] && entries[i..][1..] == entries[i + 1..];
  }

  /** The step of `QuestionNumbering` for a filled first answer: its pair
      comes first under number `count`, then the tail's pairs from
      `count + 1` on. */
  lemma NumberingStep(entries: seq<(string, JsValue)>, count: nat)
    requires entries != [] && IsFilled(entries[0].1)
    requires |QuestionLines(entries[1..], count + 1)| == 2 * |FilledAnswers(entries[1..])|
    requires forall k | 0 <= k < |FilledAnswers(entries[1..])| ::
      QuestionLines(entries[1..], count + 1)[2 * k] == Text("Q" + NatToString(count + 1 + k) + ": " + FilledAnswers(entries[1..])[k].0)
      && QuestionLines(entries[1..], count + 1)[2 * k + 1] == Text("Answer: " + Show(FilledAnswers(entries[1..])[k].1))
    ensures |QuestionLines(entries, count)| == 2 * |FilledAnswers(entries)|
    ensures forall k | 0 <= k < |FilledAnswers(entries)| ::
      QuestionLines(entries, count)[2 * k] == Text("Q" + NatToString(count + k) + ": " + FilledAnswers(entries)[k].0)
      && QuestionLines(entries, count)[2 * k + 1] == Text("Answer: " + Show(FilledAnswers(entries)[k].1))
  {
    var fa, rest := FilledAnswers(entries), FilledAnswers(entries[1..]);
    var tail := QuestionLines(entries[1..], count + 1);
    var head := [Text("Q" + NatToString(count) + ": " + entries[0].0), Text("Answer: " + Show(entries[0].1))];
    var lines := QuestionLines(entries, count);
    QuestionsUnfold(entries, 0, [], count);
    assert entries[0..] == entries;
    assert lines == head + tail;
    assert fa == [entries[0]] + rest;
    assert |lines| == 2 * |fa|;
    forall k | 0 <= k < |fa|
      ensures lines[2 * k] == Text("Q" + NatToString(count + k) + ": " + fa[k].0)
      ensures lines[2 * k + 1] == Text("Answer: " + Show(fa[k].1))
    {
      if k > 0 {
        PairAfterHead(lines, head, tail, fa, rest, entries[0], k);
        assert count + k == count + 1 + (k - 1);
      }
    }
  }

  /** Pair `k` of `head + tail`, for a two-line head, is pair `k - 1` of
      `tail`, as element `k` of `[x] + rest` is element `k - 1` of `rest`. */
  lemma PairAfterHead<L, E>(lines: seq<L>, head: seq<L>, tail: seq<L>, fa: seq<E>, rest: seq<E>, x: E, k: int)
    requires lines == head + tail && |head| == 2 && |tail| == 2 * |rest|
    requires fa == [x] + rest && 0 < k < |fa|
    ensures lines[2 * k] == tail[2 * (k - 1)] && lines[2 * k + 1] == tail[2 * (k - 1) + 1]
    ensures fa[k] == rest[k - 1]
  {
  }

  /** Every question line begins with "Q" or "Answer". */
  lemma {:induction false} QuestionLinesShape(entries: seq<(string, JsValue)>, count: nat)
    ensures forall l | l in QuestionLines(entries, count) :: l.Text? && l.text != [] && l.text[0] in "QA"
    decreases |entries|
  {
    if entries != [] {
      QuestionLinesShape(entries[1..], if IsFilled(entries[0].1) then count + 1 else count);
    }
  }

  /** No answer is printed exactly when no answer is filled. */
  lemma FilledAnswersEmptyIff(entries: seq<(string, JsValue)>)
    ensures FilledAnswers(entries) == [] <==> forall k | 0 <= k < |entries| :: !IsFilled(entries[k].1)
  {
    var fa := FilledAnswers(entries);
    if fa != [] {
      assert fa[0] in fa;
    }
  }

  /** "No answers provided" appears exactly when there are questions and none
      has a filled answer; the no-questions line exactly when there are none. */
  lemma QuestionsFallbackIff(recruiterQuestions: JsValue)
    ensures var entries := Entries(Or(recruiterQuestions, Obj([])));
      NoAnswersLine in QuestionsSection(recruiterQuestions)
      <==> |entries| > 0 && forall k | 0 <= k < |entries| :: !IsFilled(entries[k].1)
    ensures NoQuestionsLine in QuestionsSection(recruiterQuestions)
      <==> |Entries(Or(recruiterQuestions, Obj([])))| == 0
  {
    var entries := Entries(Or(recruiterQuestions, Obj([])));
    var section := QuestionsSection(recruiterQuestions);
    var heading := Text("JOB SPECIFIC QUESTIONS");
    assert NoAnswersLine.text[0] == 'N' && NoQuestionsLine.text[0] == 'N' && heading.text[0] == 'J';
    assert NoAnswersLine != NoQuestionsLine && heading != NoAnswersLine && heading != NoQuestionsLine;
    if |entries| > 0 {
      var lines := QuestionLines(entries, 1);
      QuestionLinesShape(entries, 1);
      assert NoAnswersLine !in lines && NoQuestionsLine !in lines;
      FilledAnswersEmptyIff(entries);
      var fallback := if FilledAnswers(entries) == [] then [NoAnswersLine] else [];
      assert section == [heading] + lines + fallback;
    }
  }

  // ---------------------------------------------------------------------------
  // Resume and the whole document
  // ---------------------------------------------------------------------------

  /** The resume link is printed exactly when the stored path is not blank. */
  lemma ResumeShownIff(resume: string)
    ensures ResumeSection(resume) != [] <==> !IsBlank(resume)
  {
    IsFilledIff(Str(resume));
  }

  /** The additional section appears exactly when some answer, of any key, is
      filled; below its heading it prints only gender, eligibility and source
      lines. */
  lemma AdditionalShownIff(additional: JsValue)
    ensures var entries := Entries(Or(additional, Obj([])));
      AdditionalSection(additional) != [] <==> exists k | 0 <= k < |entries| :: IsFilled(entries[k].1)
    ensures AdditionalSection(additional) != [] ==>
      && AdditionalSection(additional)[0] == Text("ADDITIONAL QUESTIONS")
      && forall l | l in AdditionalSection(additional)[1..] ::
           exists i | 0 <= i < |AdditionalFields| :: l == FieldLine(Or(additional, Obj([])), AdditionalFields[i])
  {
    var data := Or(additional, Obj([]));
    FieldLinesExactly(data, AdditionalFields);
    if AdditionalSection(additional) != [] {
      assert AdditionalSection(additional)[1..] == FieldLines(data, AdditionalFields);
    }
  }

  /** A filled answer under any other key prints the heading with no line
      under it. */
  lemma AdditionalHeadingAlone()
    ensures AdditionalSection(Obj([("disability", Str("no"))])) == [Text("ADDITIONAL QUESTIONS")]
  {
    var data := Obj([("disability", Str("no"))]);
    assert IsFilled(Entries(data)[0].1);
    assert FieldLines(data, AdditionalFields) == [];
  }

  /** Rendering fails exactly when an education or experience entry is null or
      undefined. */
  lemma RenderFailsIff(a: Application)
    ensures Rendered(a).Err? <==> HasNullish(a.education) || HasNullish(a.experience)
  {
    SectionFailsIff("EDUCATION", a.education, EducationKeys, EducationFields);
    SectionFailsIff("EXPERIENCE", a.experience, ExperienceKeys, ExperienceFields);
  }

  lemma HeadStarts(a: Application)
    ensures |HeadLines(a)| >= 5 && HeadLines(a)[..5] == TitleLines(a) + [Text("PERSONAL DETAILS")]
  {
    var top := TitleLines(a) + [Text("PERSONAL DETAILS")];
    assert HeadLines(a)[..5] == (top + FieldLines(Or(a.personal, Obj([])), PersonalFields))[..|top|] == top;
  }

  lemma ClosingHasQuestions(a: Application)
    ensures Text("JOB SPECIFIC QUESTIONS") in ClosingLines(a)
  {
    var additional := AdditionalSection(a.additional);
    assert ClosingLines(a)[|additional|] == QuestionsSection(a.recruiterQuestions)[0];
  }

  lemma ConcatKeepsEnds(head: seq<PdfLine>, middle: seq<PdfLine>, closing: seq<PdfLine>, l: PdfLine)
    requires |head| >= 5 && l in closing
    ensures (head + middle + closing)[..5] == head[..5] && l in head + middle + closing
  {
    var j :| 0 <= j < |closing| && closing[j] == l;
    assert (head + middle + closing)[|head| + |middle| + j] == l;
  }

  /** A rendered document opens with the title block and the personal-details
      heading, and always holds the job-specific heading. */
  lemma RenderedOutline(a: Application)
    requires Rendered(a).Ok?
    ensures Rendered(a).value[..5] == TitleLines(a) + [Text("PERSONAL DETAILS")]
    ensures Text("JOB SPECIFIC QUESTIONS") in Rendered(a).value
  {
    var middle := RenderedMiddle(a);
    HeadStarts(a);
    ClosingHasQuestions(a);
    ConcatKeepsEnds(HeadLines(a), middle, ClosingLines(a), Text("JOB SPECIFIC QUESTIONS"));
  }

  /** A rendered document is its head, then the two sections, then its
      closing lines. */
  lemma RenderedMiddle(a: Application) returns (middle: seq<PdfLine>)
    requires Rendered(a).Ok?
    ensures Rendered(a).value == HeadLines(a) + middle + ClosingLines(a)
  {
    var education := Section("EDUCATION", a.education, EducationKeys, EducationFields);
    var experience := Section("EXPERIENCE", a.experience, ExperienceKeys, ExperienceFields);
    assert education.Ok? && experience.Ok?;
    middle := education.value + experience.value;
    Regroup(Rendered(a).value, HeadLines(a), education.value, experience.value, ClosingLines(a));
  }

  lemma Regroup<T>(whole: seq<T>, head: seq<T>, first: seq<T>, second: seq<T>, closing: seq<T>)
    requires whole == head + first + second + closing
    ensures whole == head + (first + second) + closing
  {
  }

  /** A filled phone is printed; an empty city is not. */
  lemma PhoneShownCityOmitted(personal: JsValue)
    requires Get(personal, "phone") == Str("555-1234") && Get(personal, "city") == Str("")
    ensures HasLineFor(FieldLines(personal, PersonalFields), Field("phone", "Phone"))
    ensures !HasLineFor(FieldLines(personal, PersonalFields), Field("city", "City"))
  {
    var phone, city := PersonalFields[4], PersonalFields[7];
    assert phone == Field("phone", "Phone") && city == Field("city", "City");
    assert IsFilled(Get(personal, phone.key)) by {
      assert !IsWhitespace("555-1234"[0]);
      IsFilledIff(Str("555-1234"));
    }
    assert HasLineFor(FieldLines(personal, PersonalFields), phone) by {
      FieldNamesPrefixFree();
      FieldShownIff(personal, PersonalFields, 4);
    }
    assert !HasLineFor(FieldLines(personal, PersonalFields), city) by {
      FieldNamesPrefixFree();
      FieldShownIff(personal, PersonalFields, 7);
    }
  }

  /** A single unanswered question prints the no-answers line instead of a
      pair. */
  lemma UnansweredQuestionFallback()
    ensures QuestionsSection(Obj([("Why us?", Str(""))])) == [Text("JOB SPECIFIC QUESTIONS"), NoAnswersLine]
  {
    var entries := [("Why us?", Str(""))];
    assert !IsFilled(entries[0].1);
    assert QuestionLines(entries, 1) == [];
    FilledAnswersEmptyIff(entries);
  }

  // ---------------------------------------------------------------------------
  // The route handler's rendering, statement by statement
  // ---------------------------------------------------------------------------

  lemma ThenThen(prefix: seq<PdfLine>, block: seq<PdfLine>, rest: Result<seq<PdfLine>, RenderError>)
    ensures Then(prefix, Then(block, rest)) == Then(prefix + block, rest)
  {
    if rest.Ok? {
      assert prefix + (block + rest.value) == (prefix + block) + rest.value;
    }
  }

  lemma ThenEmpty(rest: Result<seq<PdfLine>, RenderError>)
    ensures Then([], rest) == rest
  {
    if rest.Ok? {
      assert [] + rest.value == rest.value;
    }
  }

  /** The `some` over education or experience entries. */
  method ScanKeyed(entries: seq<JsValue>, keys: seq<string>) returns (r: Result<bool, RenderError>)
    ensures r == SomeKeyed(entries, keys)
  {
    var i := 0;
    assert entries[i..] == entries;
    while i < |entries|
      invariant 0 <= i <= |entries|
      invariant SomeKeyed(entries[i..], keys) == SomeKeyed(entries, keys)
    {
      if IsNullish(entries[i]) {
        return Err(NullishEntry);
      }
      if AnyFilled(entries[i], keys) {
        return Ok(true);
      }
      assert entries[i..][1..] == entries[i + 1..];
      i := i + 1;
    }
    return Ok(false);
  }

  /** One turn of the `forEach`: the lines printed so far grow by the
      entry's block and the rest of the entries remain. */
  lemma BlocksStep(entries: seq<JsValue>, i: int, lines: seq<PdfLine>, keys: seq<string>, fields: seq<Field>)
    requires 0 <= i < |entries| && !IsNullish(entries[i])
    ensures Then(lines, Blocks(entries[i..], keys, fields))
         == Then(lines + Block(entries[i], keys, fields), Blocks(entries[i + 1..], keys, fields))
  {
    assert entries[i..][1..] == entries[i + 1..];
    assert Blocks(entries[i..], keys, fields)
        == Then(Block(entries[i], keys, fields), Blocks(entries[i + 1..], keys, fields));
    ThenThen(lines, Block(entries[i], keys, fields), Blocks(entries[i + 1..], keys, fields));
  }

  /** The `forEach` that prints each entry with a filled key. */
  method PrintBlocks(entries: seq<JsValue>, keys: seq<string>, fields: seq<Field>)
    returns (r: Result<seq<PdfLine>, RenderError>)
    ensures r == Blocks(entries, keys, fields)
  {
    var lines: seq<PdfLine> := [];
    var i := 0;
    assert entries[i..] == entries;
    ThenEmpty(Blocks(entries, keys, fields));
    while i < |entries|
      invariant 0 <= i <= |entries|
      invariant Then(lines, Blocks(entries[i..], keys, fields)) == Blocks(entries, keys, fields)
    {
      if IsNullish(entries[i]) {
        return Err(NullishEntry);
      }
      BlocksStep(entries, i, lines, keys, fields);
      ghost var before := lines;
      if AnyFilled(entries[i], keys) {
        lines := lines + FieldLines(entries[i], fields);
      }
      assert lines == before + Block(entries[i], keys, fields);
      i := i + 1;
    }
    assert lines + [] == lines;
    return Ok(lines);
  }

  /** An education or experience section: the length test, the `some` and
      the `forEach`. */
  method PrintSection(heading: string, entries: seq<JsValue>, keys: seq<string>, fields: seq<Field>)
    returns (r: Result<seq<PdfLine>, RenderError>)
    ensures r == Section(heading, entries, keys, fields)
  {
    if |entries| == 0 {
      return Ok([]);
    }
    var has := ScanKeyed(entries, keys);
    if has.Err? {
      return Err(has.error);
    }
    if !has.value {
      return Ok([]);
    }
    var blocks := PrintBlocks(entries, keys, fields);
    if blocks.Err? {
      return Err(blocks.error);
    }
    return Ok([Text(heading)] + blocks.value);
  }

  /** `Object.keys(additionalData).some(k => isFilled(additionalData[k]))`. */
  method AnyValueFilled(entries: seq<(string, JsValue)>) returns (b: bool)
    ensures b <==> exists k | 0 <= k < |entries| :: IsFilled(entries[k].1)
  {
    var i := 0;
    while i < |entries|
      invariant 0 <= i <= |entries|
      invariant forall k | 0 <= k < i :: !IsFilled(entries[k].1)
    {
      if IsFilled(entries[i].1) {
        return true;
      }
      i := i + 1;
    }
    return false;
  }

  /** The `for ... of` loop over the job-specific answers and its
      `questionCount`. */
  method PrintQuestions(entries: seq<(string, JsValue)>) returns (lines: seq<PdfLine>, questionCount: nat)
    ensures lines == QuestionLines(entries, 1)
    ensures questionCount == 1 + |FilledAnswers(entries)|
  {
    lines := [];
    questionCount := 1;
    var i := 0;
    assert entries[i..] == entries;
    while i < |entries|
      invariant 0 <= i <= |entries|
      invariant lines + QuestionLines(entries[i..], questionCount) == QuestionLines(entries, 1)
      invariant |lines| == 2 * (questionCount - 1)
      invariant questionCount >= 1
    {
      var (questionText, answer) := entries[i];
      QuestionsUnfold(entries, i, lines, questionCount);
      if IsFilled(answer) {
        var pair := [Text("Q" + NatToString(questionCount) + ": " + questionText), Text("Answer: " + Show(answer))];
        lines := lines + pair;
        questionCount := questionCount + 1;
      }
      i := i + 1;
    }
    QuestionNumbering(entries, 1);
  }

  method PrintQuestionsSection(recruiterQuestions: JsValue) returns (lines: seq<PdfLine>)
    ensures lines == QuestionsSection(recruiterQuestions)
  {
    var entries := Entries(Or(recruiterQuestions, Obj([])));
    if |entries| > 0 {
      var printed, questionCount := PrintQuestions(entries);
      lines := [Text("JOB SPECIFIC QUESTIONS")] + printed;
      if questionCount == 1 {
        lines := lines + [NoAnswersLine];
      }
    } else {
      lines := [Text("JOB SPECIFIC QUESTIONS"), NoQuestionsLine];
    }
  }

  /** Everything after the experience section: additional answers, the
      job-specific questions and the resume link. */
  method PrintClosingSections(a: Application) returns (lines: seq<PdfLine>)
    ensures lines == ClosingLines(a)
  {
    lines := [];
    var additional := Or(a.additional, Obj([]));
    var hasAdditional := AnyValueFilled(Entries(additional));
    if hasAdditional {
      lines := [Text("ADDITIONAL QUESTIONS")] + FieldLines(additional, AdditionalFields);
    }
    var questions := PrintQuestionsSection(a.recruiterQuestions);
    lines := lines + questions;
    if IsFilled(Str(a.resume)) {
      lines := lines + [Text("RESUME"), Link("Click here to view resume: " + a.resume, ResumeBaseUrl + a.resume)];
    }
  }

  /** The PDF route's rendering of a found application, in the order the
      handler writes it; a failure stands for the exception that aborts it. */
  method RenderApplication(a: Application) returns (r: Result<seq<PdfLine>, RenderError>)
    ensures r == Rendered(a)
  {
    var lines := HeadLines(a);
    var education := PrintSection("EDUCATION", a.education, EducationKeys, EducationFields);
    if education.Err? {
      return Err(education.error);
    }
    lines := lines + education.value;
    var experience := PrintSection("EXPERIENCE", a.experience, ExperienceKeys, ExperienceFields);
    if experience.Err? {
      return Err(experience.error);
    }
    lines := lines + experience.value;
    var closing := PrintClosingSections(a);
    return Ok(lines + closing);
  }
}
