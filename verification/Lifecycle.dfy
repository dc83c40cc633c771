/** The document lifecycle: Document.transition over the table of allowed transitions. */
module Lifecycle {
  datatype Status = Uploaded | Processing | NeedsReview | Approved | Rejected | Failed

  function Allowed(status: Status): set<Status> {
    match status
    case Uploaded => {Processing}
    case Processing => {NeedsReview, Approved, Rejected, Failed}
    case NeedsReview => {Processing, Approved, Rejected}
    case Failed => {Processing}
    case Approved => {}
    case Rejected => {}
  }

  /** The nine transitions there are. */
  ghost predicate Legal(from: Status, target: Status) {
    (from, target) in {
      (Uploaded, Processing), (Failed, Processing), (NeedsReview, Processing),
      (Processing, NeedsReview), (Processing, Approved), (Processing, Rejected), (Processing, Failed),
      (NeedsReview, Approved), (NeedsReview, Rejected)}
  }

  lemma AllowedIffLegal(from: Status, target: Status)
    ensures target in Allowed(from) <==> Legal(from, target)
  {
  }

  /** Status and version after one command; a refused command changes neither. */
  function After(state: (Status, nat), target: Status): (Status, nat) {
    if target in Allowed(state.0) then (target, state.1 + 1) else state
  }

  class Document {
    var status: Status
    var version: nat
    var updatedAt: int

    constructor (now: int)
      ensures status == Uploaded && version == 0 && updatedAt == now
    {
      status, version, updatedAt := Uploaded, 0, now;
    }

    /** False where the source raises InvalidDocumentTransition. */
    method Transition(target: Status, now: int) returns (ok: bool)
      modifies this
      ensures ok <==> target in Allowed(old(status))
      ensures (status, version) == After((old(status), old(version)), target)
      ensures ok <==> Legal(old(status), target)
      ensures ok ==> status == target && version == old(version) + 1 && updatedAt == now
      ensures !ok ==> status == old(status) && version == old(version) && updatedAt == old(updatedAt)
    {
      if target !in Allowed(status) {
        return false;
      }
      status := target;
      version := version + 1;
      updatedAt := now;
      ok := true;
    }
  }

  function Run(targets: seq<Status>): (Status, nat) {
    if |targets| == 0 then (Uploaded, 0) else After(Run(targets[..|targets| - 1]), targets[|targets| - 1])
  }

  /** Commands in the run that were accepted. */
  function Accepted(targets: seq<Status>): nat {
    if |targets| == 0 then 0
    else
      var front := targets[..|targets| - 1];
      Accepted(front) + (if targets[|targets| - 1] in Allowed(Run(front).0) then 1 else 0)
  }

  /** Over every run: the version counts accepted commands; uploaded is version 0 only; processing has odd
      versions; needs-review and failed have even ones from 2; approved and rejected come at 2 or later. */
  lemma {:induction false} VersionTellsStatus(targets: seq<Status>)
    ensures var (status, version) := Run(targets);
            && version == Accepted(targets)
            && (status.Uploaded? <==> version == 0)
            && (status.Processing? ==> version % 2 == 1)
            && (status.NeedsReview? || status.Failed? ==> version % 2 == 0 && version >= 2)
            && (status.Approved? || status.Rejected? ==> version >= 2)
  {
    if |targets| == 0 {
    } else {
      VersionTellsStatus(targets[..|targets| - 1]);
    }
  }

  /** Approved and rejected are final: no further commands move the document. */
  lemma {:induction false} TerminalIsAbsorbing(targets: seq<Status>, more: seq<Status>)
    requires Run(targets).0.Approved? || Run(targets).0.Rejected?
    ensures Run(targets + more) == Run(targets)
  {
    if |more| == 0 {
      assert targets + more == targets;
    } else {
      assert (targets + more)[..|targets + more| - 1] == targets + more[..|more| - 1];
      TerminalIsAbsorbing(targets, more[..|more| - 1]);
    }
  }

  lemma RunAppend(targets: seq<Status>, target: Status)
    ensures Run(targets + [target]) == After(Run(targets), target)
  {
    assert (targets + [target])[..|targets|] == targets;
  }

  /** Every document can still be brought to a decision, in at most two more commands. */
  lemma DecisionReachable(targets: seq<Status>) returns (more: seq<Status>)
    ensures |more| <= 2 && Run(targets + more).0 in {Approved, Rejected}
  {
    var status := Run(targets).0;
    RunAppend(targets, Processing);
    RunAppend(targets, Approved);
    RunAppend(targets + [Processing], Approved);
    match status
    case Approved => more := []; assert targets + more == targets;
    case Rejected => more := []; assert targets + more == targets;
    case Processing => more := [Approved];
    case NeedsReview => more := [Approved];
    case _ => more := [Processing, Approved]; assert targets + more == targets + [Processing] + [Approved];
  }
}
