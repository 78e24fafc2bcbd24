/** The application record (backend/models/Application.js): its fields, the
    status enumeration and the defaults Mongoose fills in on creation. */
module ApplicationModel {
  import opened Common
  import opened JsValues
  import Seqs

  /** A document id (a Mongo ObjectId). */
  type Id = nat

  /** The five values the schema's `status` enum admits. */
  datatype Status = Pending | Accepted | Rejected | OfferAccepted | OfferRejected

  /** The string stored for each status. */
  function StatusName(s: Status): string {
    match s
    case Pending => "pending"
    case Accepted => "accepted"
    case Rejected => "rejected"
    case OfferAccepted => "offer_accepted"
    case OfferRejected => "offer_rejected"
  }

  /** The enum validator: a string is accepted exactly when it names a status. */
  function ParseStatus(name: string): (r: Option<Status>)
    ensures r.Some? <==> name in ["pending", "accepted", "rejected", "offer_accepted", "offer_rejected"]
    ensures r.Some? ==> StatusName(r.value) == name
  {
    if name == "pending" then Some(Pending)
    else if name == "accepted" then Some(Accepted)
    else if name == "rejected" then Some(Rejected)
    else if name == "offer_accepted" then Some(OfferAccepted)
    else if name == "offer_rejected" then Some(OfferRejected)
    else None
  }

  /** Every status is stored under a name the validator accepts back. */
  lemma StatusNameRoundTrip(s: Status)
    ensures ParseStatus(StatusName(s)) == Some(s)
  {
  }

  /** An application as stored. `personal`, `additional` and
      `recruiterQuestions` are schema-less objects and `education` and
      `experience` arrays of schema-less values, so they hold whatever JSON the
      student sent. `acceptedAt` and `rejectedAt` are absent until set. */
  datatype Application = Application(
    jobId: Id,
    studentEmail: string,
    studentName: string,
    phone: JsValue,
    personal: JsValue,
    education: seq<JsValue>,
    experience: seq<JsValue>,
    additional: JsValue,
    recruiterQuestions: JsValue,
    resume: string,
    status: Status,
    offerLetter: string,
    offerPdf: string,
    rejectionMessage: string,
    acceptedAt: Option<int>,
    rejectedAt: Option<int>)

  /** No object anywhere inside `v` holds a property whose value is the
      empty object. */
  predicate NoEmptyObjects(v: JsValue)
    decreases v
  {
    match v
    case Obj(fields) =>
      forall i | 0 <= i < |fields| :: fields[i].1 != Obj([]) && NoEmptyObjects(fields[i].1)
    case Arr(items) => forall i | 0 <= i < |items| :: NoEmptyObjects(items[i])
    case _ => true
  }

  /** The properties whose minimized value is present, in order. */
  function KeepPresent(mins: seq<(string, Option<JsValue>)>): (r: seq<(string, JsValue)>)
    ensures forall j | 0 <= j < |r| :: (r[j].0, Some(r[j].1)) in mins
    ensures |r| <= |mins|
    decreases |mins|
  {
    if mins == [] then []
    else if mins[0].1.Some? then [(mins[0].0, mins[0].1.value)] + KeepPresent(mins[1..])
    else KeepPresent(mins[1..])
  }

  /** Mongoose's default `minimize` on save, applied to a schema-less value:
      an object nested under a key loses every property whose value
      minimizes to the empty object, and is itself dropped (`None`) when
      nothing is left; an array keeps all of its elements, each minimized
      inside; any other value is kept. */
  function Minimized(v: JsValue, inArray: bool): (r: Option<JsValue>)
    ensures r.None? ==> !inArray && v.Obj?
    ensures r.Some? ==> NoEmptyObjects(r.value) && (inArray || r.value != Obj([]))
    ensures !v.Obj? && !v.Arr? ==> r == Some(v)
    decreases v, 1
  {
    match v
    case Obj(fields) =>
      var kept := KeepPresent(MinimizedFields(fields));
      if kept == [] && !inArray then None else Some(Obj(kept))
    case Arr(items) =>
      Some(Arr(seq(|items|, i requires 0 <= i < |items| => Minimized(items[i], true).value)))
    case _ => Some(v)
  }

  /** Each property of an object with its minimized value, `None` when the
      value is dropped. */
  function MinimizedFields(fields: seq<(string, JsValue)>): (r: seq<(string, Option<JsValue>)>)
    ensures |r| == |fields|
    ensures forall i | 0 <= i < |fields| :: r[i].0 == fields[i].0 && r[i].1 == Minimized(fields[i].1, false)
    decreases Obj(fields), 0
  {
    seq(|fields|, i requires 0 <= i < |fields| => (fields[i].0, Minimized(fields[i].1, false)))
  }

  predicate Present(e: (string, Option<JsValue>)) {
    e.1.Some?
  }

  /** Kept properties seen again as minimized ones. */
  function Wrapped(kept: seq<(string, JsValue)>): (r: seq<(string, Option<JsValue>)>)
    ensures |r| == |kept|
    ensures forall j | 0 <= j < |kept| :: r[j] == (kept[j].0, Some(kept[j].1))
  {
    seq(|kept|, j requires 0 <= j < |kept| => (kept[j].0, Some(kept[j].1)))
  }

  lemma WrappedCons(head: (string, JsValue), rest: seq<(string, JsValue)>)
    ensures Wrapped([head] + rest) == [(head.0, Some(head.1))] + Wrapped(rest)
  {
    assert forall j | 1 <= j < |rest| + 1 :: ([head] + rest)[j] == rest[j - 1];
  }

  /** `KeepPresent` keeps exactly the present entries, each once per
      occurrence and in their order: it is the `filter` of those entries. */
  lemma {:induction false} KeepPresentSpec(mins: seq<(string, Option<JsValue>)>)
    ensures Wrapped(KeepPresent(mins)) == Seqs.Filter(Present, mins)
    decreases |mins|
  {
    if mins != [] {
      KeepPresentSpec(mins[1..]);
      var rest := KeepPresent(mins[1..]);
      if mins[0].1.Some? {
        var head := (mins[0].0, mins[0].1.value);
        assert Seqs.Filter(Present, mins) == [mins[0]] + Seqs.Filter(Present, mins[1..]);
        WrappedCons(head, rest);
      } else {
        assert Seqs.Filter(Present, mins) == Seqs.Filter(Present, mins[1..]);
      }
    }
  }

  /** The object minimizes to its surviving properties, or is dropped. */
  lemma MinimizedObjectShape(fields: seq<(string, JsValue)>, inArray: bool)
    ensures var kept := KeepPresent(MinimizedFields(fields));
      Minimized(Obj(fields), inArray) == if kept == [] && !inArray then None else Some(Obj(kept))
  {
  }

  /** A property survives, under its key and with its minimized value,
      whenever that value is not dropped; the object holding it is then
      kept too. */
  lemma MinimizedKeepsProperty(fields: seq<(string, JsValue)>, inArray: bool, i: int)
    requires 0 <= i < |fields| && Minimized(fields[i].1, false).Some?
    ensures Minimized(Obj(fields), inArray).Some?
    ensures Minimized(Obj(fields), inArray).value.Obj?
    ensures (fields[i].0, Minimized(fields[i].1, false).value) in Minimized(Obj(fields), inArray).value.fields
  {
    var mins := MinimizedFields(fields);
    var kept := KeepPresent(mins);
    KeepPresentSpec(mins);
    var filtered := Seqs.Filter(Present, mins);
    assert Present(mins[i]);
    assert mins[i] in filtered;
    var j :| 0 <= j < |filtered| && filtered[j] == mins[i];
    assert Wrapped(kept)[j] == mins[i];
    assert kept[j] == (fields[i].0, Minimized(fields[i].1, false).value);
    MinimizedObjectShape(fields, inArray);
  }

  /** Every kept property is one of the object's, with its key, whose value
      minimizes to the kept value. */
  lemma MinimizedKeptFrom(fields: seq<(string, JsValue)>, inArray: bool, j: int)
    requires Minimized(Obj(fields), inArray).Some?
    ensures Minimized(Obj(fields), inArray).value.Obj?
    ensures var kept := Minimized(Obj(fields), inArray).value.fields;
      0 <= j < |kept| ==> exists i | 0 <= i < |fields| ::
        fields[i].0 == kept[j].0 && Minimized(fields[i].1, false) == Some(kept[j].1)
  {
    var mins := MinimizedFields(fields);
    var kept := KeepPresent(mins);
    MinimizedObjectShape(fields, inArray);
    if 0 <= j < |kept| {
      KeepPresentSpec(mins);
      var filtered := Seqs.Filter(Present, mins);
      assert Wrapped(kept)[j] == filtered[j];
      assert filtered[j] in mins;
      var i :| 0 <= i < |mins| && mins[i] == filtered[j];
      assert fields[i].0 == kept[j].0 && Minimized(fields[i].1, false) == Some(kept[j].1);
    }
  }

  /** The kept properties are the surviving ones in the object's order, each
      as often as it occurs: the `filter` of the minimized properties. */
  lemma MinimizedKeepsOrder(fields: seq<(string, JsValue)>, inArray: bool)
    requires Minimized(Obj(fields), inArray).Some?
    ensures Minimized(Obj(fields), inArray).value.Obj?
    ensures Wrapped(Minimized(Obj(fields), inArray).value.fields) == Seqs.Filter(Present, MinimizedFields(fields))
  {
    MinimizedObjectShape(fields, inArray);
    KeepPresentSpec(MinimizedFields(fields));
  }

  /** An object under a key is dropped exactly when each of its properties
      is; inside an array it is always kept. */
  lemma MinimizedDropsIff(fields: seq<(string, JsValue)>, inArray: bool)
    ensures Minimized(Obj(fields), inArray).None? <==>
      !inArray && forall i | 0 <= i < |fields| :: Minimized(fields[i].1, false).None?
  {
    MinimizedObjectShape(fields, inArray);
    if !inArray && Minimized(Obj(fields), inArray).Some? {
      var kept := Minimized(Obj(fields), inArray).value.fields;
      assert kept != [];
      MinimizedKeptFrom(fields, inArray, 0);
    }
    forall i | 0 <= i < |fields| && Minimized(fields[i].1, false).Some?
      ensures Minimized(Obj(fields), inArray).Some?
    {
      MinimizedKeepsProperty(fields, inArray, i);
    }
  }

  /** What a `Mixed` path holds after the save: its minimized value, or
      nothing (undefined) when that is dropped. */
  function Stored(v: JsValue): (r: JsValue)
    ensures r == Undefined || NoEmptyObjects(r)
    ensures r != Obj([])
    ensures v == Obj([]) ==> r == Undefined
    ensures !v.Obj? && !v.Arr? ==> r == v
  {
    match Minimized(v, false)
    case None => Undefined
    case Some(m) => m
  }

  /** An `Array` path's elements after the save: all kept, each minimized. */
  function StoredItems(items: seq<JsValue>): (r: seq<JsValue>)
    ensures |r| == |items|
    ensures forall i | 0 <= i < |items| :: NoEmptyObjects(r[i]) && Some(r[i]) == Minimized(items[i], true)
  {
    seq(|items|, i requires 0 <= i < |items| => Minimized(items[i], true).value)
  }

  /** A value without empty objects is saved as it is. */
  lemma {:induction false} MinimizedKeepsClean(v: JsValue, inArray: bool)
    requires NoEmptyObjects(v) && (inArray || v != Obj([]))
    ensures Minimized(v, inArray) == Some(v)
    decreases v
  {
    match v
    case Obj(fields) =>
      var mins := MinimizedFields(fields);
      forall i | 0 <= i < |fields| ensures mins[i] == (fields[i].0, Some(fields[i].1)) {
        MinimizedKeepsClean(fields[i].1, false);
      }
      KeepAllPresent(fields, mins);
    case Arr(items) =>
      forall i | 0 <= i < |items| ensures Minimized(items[i], true) == Some(items[i]) {
        MinimizedKeepsClean(items[i], true);
      }
      KeepAllItems(items);
    case _ =>
  }

  /** When every property minimizes to itself, all of them are kept, in order. */
  lemma {:induction false} KeepAllPresent(fields: seq<(string, JsValue)>, mins: seq<(string, Option<JsValue>)>)
    requires |mins| == |fields|
    requires forall i | 0 <= i < |fields| :: mins[i] == (fields[i].0, Some(fields[i].1))
    ensures KeepPresent(mins) == fields
    decreases |mins|
  {
    if mins != [] {
      KeepAllPresent(fields[1..], mins[1..]);
      assert fields == [fields[0]] + fields[1..];
    }
  }

  /** When every element minimizes to itself, the array is saved unchanged. */
  lemma KeepAllItems(items: seq<JsValue>)
    requires forall i | 0 <= i < |items| :: Minimized(items[i], true) == Some(items[i])
    ensures seq(|items|, i requires 0 <= i < |items| => Minimized(items[i], true).value) == items
  {
  }

  /** Minimizing twice is minimizing once. */
  lemma MinimizedIdempotent(v: JsValue, inArray: bool)
    requires Minimized(v, inArray).Some?
    ensures Minimized(Minimized(v, inArray).value, inArray) == Minimized(v, inArray)
  {
    MinimizedKeepsClean(Minimized(v, inArray).value, inArray);
  }

  /** An answer that is an empty object is not saved, and neither is an
      object holding only such answers. */
  lemma EmptyAnswerNotStored()
    ensures Stored(Obj([("gender", Obj([]))])) == Undefined
    ensures Stored(Obj([("gender", Obj([])), ("hearAboutUs", Str("web"))])) == Obj([("hearAboutUs", Str("web"))])
  {
    var inner := Obj([]);
    assert Minimized(inner, false) == None;
    var one := [("gender", inner)];
    assert seq(|one|, i requires 0 <= i < |one| => (one[i].0, Minimized(one[i].1, false))) == [("gender", None)];
    var two := [("gender", inner), ("hearAboutUs", Str("web"))];
    assert seq(|two|, i requires 0 <= i < |two| => (two[i].0, Minimized(two[i].1, false)))
        == [("gender", None), ("hearAboutUs", Some(Str("web")))];
  }

  /** Mongoose's `required` on a String rejects a missing or empty value. */
  predicate RequiredString(s: Option<string>) {
    s.Some? && s.value != ""
  }

  /** The stored invariant of an application: its required student email is set. */
  predicate ValidApplication(a: Application) {
    a.studentEmail != ""
  }

  /** `Application.create({...})` given the fields the caller supplies: refused
      when the required `studentEmail` is missing or empty; otherwise the
      record holding the given fields, the schema-less ones minimized, with
      status `pending`, empty offer and rejection texts and no decision
      dates. */
  function CreateApplication(
    jobId: Id, studentEmail: Option<string>, studentName: string, phone: JsValue,
    personal: JsValue, education: seq<JsValue>, experience: seq<JsValue>,
    additional: JsValue, recruiterQuestions: JsValue, resume: string): (r: Option<Application>)
    ensures r.Some? <==> RequiredString(studentEmail)
    ensures r.Some? ==> ValidApplication(r.value) && r.value.studentEmail == studentEmail.value
    ensures r.Some? ==>
              && r.value.jobId == jobId && r.value.studentName == studentName && r.value.phone == phone
              && r.value.personal == Stored(personal) && r.value.education == StoredItems(education)
              && r.value.experience == StoredItems(experience) && r.value.additional == Stored(additional)
              && r.value.recruiterQuestions == Stored(recruiterQuestions) && r.value.resume == resume
    ensures r.Some? ==>
              && r.value.status == Pending
              && r.value.offerLetter == "" && r.value.offerPdf == "" && r.value.rejectionMessage == ""
              && r.value.acceptedAt.None? && r.value.rejectedAt.None?
  {
    if !RequiredString(studentEmail) then None
    else Some(Application(jobId, studentEmail.value, studentName, phone, Stored(personal),
      StoredItems(education), StoredItems(experience), Stored(additional), Stored(recruiterQuestions), resume,
      Pending, "", "", "", None, None))
  }
}
