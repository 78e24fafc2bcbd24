/** The student's application list
    (frontend/src/pages/student/MyApplications.jsx): the decision each button
    sends, which actions are shown for a status, the status badge and the
    rejection-feedback toggle. */
module MyApplicationsPage {
  import opened Common
  import opened JsValues
  import opened ApplicationModel

  datatype OfferButton = AcceptButton | RejectButton

  /** `acceptOffer` and `rejectOffer` post these decisions. */
  function DecisionFor(b: OfferButton): (d: string)
    ensures d == "accept" <==> b == AcceptButton
    ensures d == "reject" <==> b == RejectButton
  {
    match b
    case AcceptButton => "accept"
    case RejectButton => "reject"
  }

  /** The offer actions (view letter, download, accept, reject). */
  predicate OfferActionsShown(status: string) {
    status == "accepted" || status == "offer_sent"
  }

  /** The "View Rejection Message" button. */
  predicate RejectionFeedbackShown(status: string, rejectionMessage: string) {
    status == "rejected" && rejectionMessage != ""
  }

  /** For a stored status, offer actions appear exactly on an accepted
      application: "offer_sent" is no status the schema admits. */
  lemma OfferActionsOnlyWhenAccepted(s: Status)
    ensures OfferActionsShown(StatusName(s)) <==> s == Accepted
  {
  }

  /** For a stored application the feedback button appears exactly on a
      rejected one with a non-empty message, and never together with the
      offer actions. */
  lemma RejectionFeedbackOnlyWhenRejected(s: Status, message: string)
    ensures RejectionFeedbackShown(StatusName(s), message) <==> s == Rejected && message != ""
    ensures !(RejectionFeedbackShown(StatusName(s), message) && OfferActionsShown(StatusName(s)))
  {
    assert StatusName(Rejected) == "rejected";
    if s != Rejected {
      assert ParseStatus(StatusName(s)) == Some(s);
    }
  }

  /** `app.status?.toUpperCase() || "PENDING"`. */
  function Badge(status: Option<string>): (r: string)
    ensures status.None? || status.value == "" ==> r == "PENDING"
    ensures status.Some? && status.value != "" ==>
      |r| == |status.value| && forall i | 0 <= i < |r| :: r[i] == UpperChar(status.value[i])
  {
    if status.Some? && ToUpper(status.value) != "" then ToUpper(status.value) else "PENDING"
  }

  /** An illustration of `Badge` on two stored statuses. */
  lemma BadgeOfStoredStatus()
    ensures Badge(Some(StatusName(OfferAccepted))) == "OFFER_ACCEPTED"
    ensures Badge(Some(StatusName(Pending))) == "PENDING"
  {
    assert ToUpper("offer_accepted") == "OFFER_ACCEPTED";
    assert ToUpper("pending") == "PENDING";
  }

  /** The click handler's new `openOfferId`. */
  function Toggled(open: Option<Id>, id: Id): (r: Option<Id>)
    ensures r.Some? <==> open != Some(id)
    ensures r.Some? ==> r.value == id
  {
    if open == Some(id) then None else Some(id)
  }

  /** Clicking the same application twice closes what the first click
      opened; clicking another one replaces the open one. */
  lemma ToggleTwice(open: Option<Id>, id: Id, other: Id)
    ensures open != Some(id) ==> Toggled(Toggled(open, id), id) == None
    ensures other != id ==> Toggled(Toggled(open, id), other) == Some(other)
  {
  }

  /** The page's `openOfferId` state. */
  class FeedbackToggle {
    var openOfferId: Option<Id>

    constructor()
      ensures openOfferId == None
    {
      openOfferId := None;
    }

    method Toggle(id: Id)
      modifies this
      ensures openOfferId == Toggled(old(openOfferId), id)
      ensures IsOpen(id) <==> !old(IsOpen(id))
      ensures forall other | other != id :: !IsOpen(other)
    {
      openOfferId := if openOfferId == Some(id) then None else Some(id);
    }

    /** The feedback box is open for `id`. */
    predicate IsOpen(id: Id)
      reads this
    {
      openOfferId == Some(id)
    }

    /** At most one feedback box is open at a time. */
    lemma OneBoxOpen(id: Id, other: Id)
      requires other != id
      ensures !(IsOpen(id) && IsOpen(other))
    {
    }
  }
}
