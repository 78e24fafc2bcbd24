/** The application status as the three decision routes change it
    (backend/server.js, send-offer, send-rejection and student respond), and
    the buttons through which the pages let users fire those routes
    (JobApplications.jsx and MyApplications.jsx). The routes check no current
    status; only the pages restrict when a decision can be sent. */
module Lifecycle {
  import opened Common
  import opened ApplicationModel
  import JobApplicationsPage
  import MyApplicationsPage

  /** A decision route call: the recruiter's offer or rejection, or the
      student's response carrying `req.body.decision`. */
  datatype Event = Offer | Rejection | StudentResponse(decision: Option<string>)

  /** The status a route stores, whatever the status was before. */
  function Next(s: Status, e: Event): (r: Status)
    ensures e == Offer ==> r == Accepted
    ensures e == Rejection ==> r == Rejected
    ensures e.StudentResponse? ==> (r == OfferAccepted <==> e.decision == Some("accept"))
    ensures e.StudentResponse? ==> (r == OfferRejected <==> e.decision != Some("accept"))
  {
    match e
    case Offer => Accepted
    case Rejection => Rejected
    case StudentResponse(d) => if d == Some("accept") then OfferAccepted else OfferRejected
  }

  /** The status after a sequence of route calls. */
  function Run(s: Status, events: seq<Event>): (r: Status)
    decreases |events|
  {
    if events == [] then s else Run(Next(s, events[0]), events[1..])
  }

  /** Only the last call decides: the routes overwrite the status. */
  lemma {:induction false} LastEventDecides(s: Status, events: seq<Event>)
    requires events != []
    ensures Run(s, events) == Next(s, events[|events| - 1])
    decreases |events|
  {
    if |events| > 1 {
      LastEventDecides(Next(s, events[0]), events[1..]);
      assert events[1..][|events[1..]| - 1] == events[|events| - 1];
    }
  }

  /** Without a status guard a response needs no offer: a pending
      application becomes offer_accepted straight away. */
  lemma ResponseWithoutOffer()
    ensures Run(Pending, [StudentResponse(Some("accept"))]) == OfferAccepted
    ensures Run(Rejected, [StudentResponse(Some("accept"))]) == OfferAccepted
  {
  }

  /** Without a status guard a decided application can be decided again:
      an accepted offer is turned into a rejection. */
  lemma RedecisionOverwrites()
    ensures Run(Pending, [Offer, StudentResponse(Some("accept")), Rejection]) == Rejected
  {
    assert Run(Pending, [Offer, StudentResponse(Some("accept")), Rejection])
      == Run(Next(Pending, Offer), [StudentResponse(Some("accept")), Rejection]);
  }

  /** A decision the page does not send (missing or any other text) counts
      as a rejection of the offer. */
  lemma OtherDecisionRejects(s: Status, d: Option<string>)
    requires d != Some("accept")
    ensures Next(s, StudentResponse(d)) == OfferRejected
  {
  }

  /** Which calls the pages offer for an application in status `s`: the
      recruiter's Send Offer and Reject buttons on a pending application,
      the student's Accept and Reject buttons on an accepted one, posting
      exactly the decision of the button. */
  predicate UiAllows(s: Status, e: Event) {
    match e
    case Offer => JobApplicationsPage.DecisionButtonsShown(StatusName(s))
    case Rejection => JobApplicationsPage.DecisionButtonsShown(StatusName(s))
    case StudentResponse(d) =>
      && MyApplicationsPage.OfferActionsShown(StatusName(s))
      && (d == Some(MyApplicationsPage.DecisionFor(MyApplicationsPage.AcceptButton))
          || d == Some(MyApplicationsPage.DecisionFor(MyApplicationsPage.RejectButton)))
  }

  /** Every call in the trace is offered by the page at the status it meets. */
  predicate GuardedTrace(s: Status, events: seq<Event>)
    decreases |events|
  {
    events == [] || (UiAllows(s, events[0]) && GuardedTrace(Next(s, events[0]), events[1..]))
  }

  /** The page buttons fire a decision only from the status the buttons
      are shown on: recruiter decisions from pending, student responses
      from accepted. */
  lemma UiAllowsIff(s: Status, e: Event)
    ensures e.Offer? || e.Rejection? ==> (UiAllows(s, e) <==> s == Pending)
    ensures e.StudentResponse? ==>
      (UiAllows(s, e) <==> s == Accepted && (e.decision == Some("accept") || e.decision == Some("reject")))
  {
    MyApplicationsPage.OfferActionsOnlyWhenAccepted(s);
  }

  /** Through the pages, a pending application follows one of exactly five
      histories: untouched, rejected, offered, offered and accepted, offered
      and declined; nothing can follow a rejection or a response. */
  lemma {:induction false} GuardedTracesFromPending(events: seq<Event>)
    requires GuardedTrace(Pending, events)
    ensures || events == []
            || events == [Rejection]
            || events == [Offer]
            || events == [Offer, StudentResponse(Some("accept"))]
            || events == [Offer, StudentResponse(Some("reject"))]
  {
    if events != [] {
      var e := events[0];
      UiAllowsIff(Pending, e);
      var s := Next(Pending, e);
      var rest := events[1..];
      if rest != [] {
        UiAllowsIff(s, rest[0]);
        var t := Next(s, rest[0]);
        assert e == Offer && s == Accepted;
        assert rest[0].StudentResponse? && (t == OfferAccepted || t == OfferRejected);
        if rest[1..] != [] {
          assert GuardedTrace(s, rest);
          assert GuardedTrace(t, rest[1..]);
          assert UiAllows(t, rest[1..][0]);
          UiAllowsIff(t, rest[1..][0]);
          assert false;
        }
        assert events == [e, rest[0]];
      } else {
        assert events == [e];
      }
    }
  }

  /** Through the pages, a student's response is only ever recorded on an
      application the recruiter has made an offer on, and its final status
      is the one of the button pressed. */
  lemma {:induction false} GuardedOutcome(events: seq<Event>)
    requires GuardedTrace(Pending, events)
    ensures Run(Pending, events) in {OfferAccepted, OfferRejected} ==> Offer in events
    ensures Run(Pending, events) == OfferAccepted <==> events == [Offer, StudentResponse(Some("accept"))]
  {
    GuardedTracesFromPending(events);
    assert Run(Pending, [Rejection]) == Rejected;
    assert Run(Pending, [Offer]) == Accepted;
    assert Run(Pending, [Offer, StudentResponse(Some("accept"))]) == OfferAccepted;
    assert Run(Pending, [Offer, StudentResponse(Some("reject"))]) == OfferRejected;
  }

  /** The student's buttons: Accept yields offer_accepted, Reject yields
      offer_rejected. */
  lemma ButtonDecision(s: Status, b: MyApplicationsPage.OfferButton)
    ensures Next(s, StudentResponse(Some(MyApplicationsPage.DecisionFor(b)))) == OfferAccepted
            <==> b == MyApplicationsPage.AcceptButton
  {
  }
}
