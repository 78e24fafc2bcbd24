/** The recruiter's applicant list
    (frontend/src/pages/recruiter/JobApplications.jsx): the decision modal,
    the request it sends and the local status update. */
module JobApplicationsPage {
  import opened Common
  import opened JsValues
  import opened ApplicationModel

  /** One row of the list: the application's id and its status string. */
  datatype Row = Row(id: Id, studentEmail: string, status: string)

  datatype Endpoint = SendOfferEndpoint | SendRejectionEndpoint

  /** The request `sendMessage` posts: the endpoint, the message and, for an
      offer, the chosen PDF. */
  datatype Request = Request(applicationId: Id, endpoint: Endpoint, message: string, offerPdf: Option<string>)

  /** Accept and Reject are offered only for pending applications. */
  predicate DecisionButtonsShown(status: string) {
    status == "pending"
  }

  function DecidedStatus(actionType: string): (s: string)
    ensures s == "accepted" <==> actionType == "accept"
    ensures s == "accepted" || s == "rejected"
  {
    if actionType == "accept" then "accepted" else "rejected"
  }

  /** `apps.map(...)` after a successful send: the selected row takes the
      decided status; the others, the length and the order are unchanged. */
  function MarkDecided(apps: seq<Row>, id: Id, actionType: string): (r: seq<Row>)
    ensures |r| == |apps|
    ensures forall k | 0 <= k < |apps| && apps[k].id != id :: r[k] == apps[k]
    ensures forall k | 0 <= k < |apps| && apps[k].id == id :: r[k] == apps[k].(status := DecidedStatus(actionType))
  {
    seq(|apps|, k requires 0 <= k < |apps| =>
      if apps[k].id == id then apps[k].(status := DecidedStatus(actionType)) else apps[k])
  }

  /** Marking the same decision twice changes nothing more. */
  lemma {:induction false} MarkDecidedIdempotent(apps: seq<Row>, id: Id, actionType: string)
    ensures MarkDecided(MarkDecided(apps, id, actionType), id, actionType) == MarkDecided(apps, id, actionType)
  {
    var once := MarkDecided(apps, id, actionType);
    var twice := MarkDecided(once, id, actionType);
    forall k | 0 <= k < |apps| ensures twice[k] == once[k] {
      if apps[k].id == id {
        assert once[k].id == id;
      }
    }
  }

  /** After a decision no row with that id is still pending, so its buttons
      are gone. */
  lemma DecidedRowHasNoButtons(apps: seq<Row>, id: Id, actionType: string, k: int)
    requires 0 <= k < |apps| && apps[k].id == id
    ensures !DecisionButtonsShown(MarkDecided(apps, id, actionType)[k].status)
  {
  }

  /** The modal's state; `apps` is the list shown behind it. */
  class DecisionModal {
    var apps: seq<Row>
    var showModal: bool
    var selectedApp: Option<Row>
    var message: string
    var actionType: string
    var selectedFile: Option<string>

    constructor(apps: seq<Row>)
      ensures this.apps == apps && !showModal && selectedApp.None?
      ensures message == "" && actionType == "" && selectedFile.None?
    {
      this.apps := apps;
      showModal := false;
      selectedApp := None;
      message := "";
      actionType := "";
      selectedFile := None;
    }

    /** `openModal`: selects the row and the action and clears the message
        and the file. */
    method OpenModal(app: Row, kind: string)
      modifies this
      ensures selectedApp == Some(app) && actionType == kind && message == "" && selectedFile.None? && showModal
      ensures apps == old(apps)
    {
      selectedApp := Some(app);
      actionType := kind;
      message := "";
      selectedFile := None;
      showModal := true;
    }

    method SetMessage(text: string)
      modifies this
      ensures message == text
      ensures apps == old(apps) && showModal == old(showModal) && selectedApp == old(selectedApp)
      ensures actionType == old(actionType) && selectedFile == old(selectedFile)
    {
      message := text;
    }

    method SetFile(file: Option<string>)
      modifies this
      ensures selectedFile == file
      ensures apps == old(apps) && showModal == old(showModal) && selectedApp == old(selectedApp)
      ensures actionType == old(actionType) && message == old(message)
    {
      selectedFile := file;
    }

    /** The request `sendMessage` would post from the current state: none for
        a blank message or when no application is selected. */
    function PendingRequest(): (r: Option<Request>)
      reads this
      ensures r.None? <==> IsBlank(message) || selectedApp.None?
      ensures r.Some? ==> r.value.applicationId == selectedApp.value.id && r.value.message == message
      ensures r.Some? ==> (r.value.endpoint == SendOfferEndpoint <==> actionType == "accept")
      ensures r.Some? ==> (r.value.offerPdf.Some? <==> actionType == "accept" && selectedFile.Some?)
    {
      TrimEmptyIffBlank(message);
      if Trim(message) == "" || selectedApp.None? then None
      else
        var endpoint := if actionType == "accept" then SendOfferEndpoint else SendRejectionEndpoint;
        var pdf := if actionType == "accept" then selectedFile else None;
        Some(Request(selectedApp.value.id, endpoint, message, pdf))
    }

    /** `sendMessage`: a blank message is refused before anything is sent;
        otherwise the request is built and, once the server has accepted it
        (`delivered`), the row is marked and the modal closed. */
    method SendMessage(delivered: bool) returns (sent: Option<Request>)
      modifies this
      ensures sent == old(PendingRequest())
      ensures sent.Some? && delivered ==> apps == MarkDecided(old(apps), sent.value.applicationId, actionType) && !showModal
      ensures sent.None? || !delivered ==> apps == old(apps) && showModal == old(showModal)
      ensures selectedApp == old(selectedApp) && message == old(message)
      ensures actionType == old(actionType) && selectedFile == old(selectedFile)
    {
      sent := PendingRequest();
      if sent.None? {
        return;
      }
      if delivered {
        apps := MarkDecided(apps, selectedApp.value.id, actionType);
        showModal := false;
      }
    }
  }
}
