/** The review machine that agent-drafted work goes through. Change sets and device commands run
    the same machine; they differ in what a confirmation must carry. `Running` stands for applying
    and dispatching, `Succeeded` for applied and dispatched. */
module Governance {
  import opened Text

  datatype Kind = ChangeSet | Command
  datatype Risk = Low | Medium | High | Critical
  datatype Status = Draft | AwaitingConfirmation | Confirmed | Running | Succeeded | Rejected | Failed
  datatype Severity = Info | Warning | Error

  datatype Report = Report(valid: bool, issues: seq<Severity>)
  datatype Evidence = Evidence(confirmedBy: string, coApprover: Option<string>, note: Option<string>)
  datatype Outcome = RejectedBy(actor: string, note: string) | Finished(detail: string)

  datatype Item = Item(kind: Kind, risk: Risk, status: Status, validation: Option<Report>,
                       confirmation: Option<Evidence>, result: Option<Outcome>)

  datatype Problem = InvalidTransition | ValidationRequired | HumanRequired | NoteRequired | TwoPeopleRequired
  datatype Result = Ok(item: Item) | Err(problem: Problem)

  /** A report is valid when none of its issues is an error. */
  function NewReport(issues: seq<Severity>): Report {
    Report(Error !in issues, issues)
  }

  function NewItem(kind: Kind, risk: Risk): Item {
    Item(kind, risk, Draft, None, None, None)
  }

  // ----- who may confirm

  predicate NamesMachine(actor: string) {
    "agent:" <= actor || "model:" <= actor
  }

  predicate HumanActor(actor: string) {
    actor != "" && !NamesMachine(actor)
  }

  predicate IsHuman(e: Evidence) {
    HumanActor(Trim(e.confirmedBy))
  }

  /** `distinct_approvers`: the trimmed human names on the evidence, each once. */
  function Approvers(e: Evidence): set<string> {
    (if IsHuman(e) then {Trim(e.confirmedBy)} else {}) +
    (if e.coApprover.Some? && HumanActor(Trim(e.coApprover.value)) then {Trim(e.coApprover.value)} else {})
  }

  predicate HasNote(e: Evidence) {
    e.note.Some? && Trim(e.note.value) != ""
  }

  predicate NoteNeeded(kind: Kind, risk: Risk) {
    kind == Command || risk == High || risk == Critical
  }

  predicate TwoPeopleNeeded(kind: Kind, risk: Risk) {
    kind == Command && risk == Critical
  }

  /** The two-person rule, said without counting. */
  lemma TwoApprovers(e: Evidence)
    ensures |Approvers(e)| >= 2 <==>
              && IsHuman(e) && e.coApprover.Some? && HumanActor(Trim(e.coApprover.value))
              && Trim(e.coApprover.value) != Trim(e.confirmedBy)
  {
    var a, b := Trim(e.confirmedBy), if e.coApprover.Some? then Trim(e.coApprover.value) else "";
    assert |{a}| == 1 && |{b}| == 1 && (a != b ==> |{a, b}| == 2);
    assert Approvers(e) <= {a, b};
    assert a == b ==> Approvers(e) <= {a};
    if !IsHuman(e) { assert Approvers(e) <= {b}; Smaller(Approvers(e), b); }
    if !(e.coApprover.Some? && HumanActor(b)) { assert Approvers(e) <= {a}; Smaller(Approvers(e), a); }
    if a == b { Smaller(Approvers(e), a); }
    if IsHuman(e) && e.coApprover.Some? && HumanActor(b) { assert Approvers(e) == {a, b}; }
  }

  lemma Smaller(s: set<string>, x: string)
    requires s <= {x}
    ensures |s| <= 1
  {
    assert s == {} || s == {x};
  }

  // ----- the transitions

  predicate Settled(s: Status) {
    s == Running || s == Succeeded || s == Rejected || s == Failed
  }

  predicate Terminal(s: Status) {
    s == Succeeded || s == Rejected || s == Failed
  }

  datatype Action =
    | Validate(issues: seq<Severity>)
    | Confirm(evidence: Evidence)
    | Reject(actor: string, reason: string)
    | Start
    | Finish(success: bool, detail: string)

  function Confirmation(item: Item, e: Evidence): Result {
    if item.status != AwaitingConfirmation then Err(InvalidTransition)
    else if !(item.validation.Some? && item.validation.value.valid) then Err(ValidationRequired)
    else if !IsHuman(e) then Err(HumanRequired)
    else if NoteNeeded(item.kind, item.risk) && !HasNote(e) then Err(NoteRequired)
    else if TwoPeopleNeeded(item.kind, item.risk) && |Approvers(e)| < 2 then Err(TwoPeopleRequired)
    else Ok(item.(confirmation := Some(e), status := Confirmed))
  }

  function Rejection(item: Item, actor: string, reason: string): Result {
    if Settled(item.status) then Err(InvalidTransition)
    else if Trim(actor) == "" || NamesMachine(actor) then Err(HumanRequired)
    else if Trim(reason) == "" then Err(NoteRequired)
    else Ok(item.(status := Rejected, confirmation := None, result := Some(RejectedBy(actor, reason))))
  }

  function Step(item: Item, action: Action): Result {
    match action
    case Validate(issues) =>
      var report := NewReport(issues);
      if Settled(item.status) then Err(InvalidTransition)
      else Ok(item.(status := if report.valid then AwaitingConfirmation else Draft,
                    validation := Some(report), confirmation := None))
    case Confirm(e) => Confirmation(item, e)
    case Reject(actor, reason) => Rejection(item, actor, reason)
    case Start => if item.status != Confirmed then Err(InvalidTransition) else Ok(item.(status := Running))
    case Finish(success, detail) =>
      if item.status != Running then Err(InvalidTransition)
      else Ok(item.(status := if success then Succeeded else Failed, result := Some(Finished(detail))))
  }

  /** A refused action leaves the item as it was. */
  function After(item: Item, action: Action): Item {
    match Step(item, action) case Ok(next) => next case Err(_) => item
  }

  function Run(item: Item, actions: seq<Action>): Item {
    if actions == [] then item else After(Run(item, actions[..|actions| - 1]), actions[|actions| - 1])
  }

  /** A governed item as the control plane holds it, updated field by field. */
  class Governed {
    const kind: Kind
    const risk: Risk
    var status: Status
    var validation: Option<Report>
    var confirmation: Option<Evidence>
    var result: Option<Outcome>

    function View(): Item
      reads this
    {
      Item(kind, risk, status, validation, confirmation, result)
    }

    constructor (kind: Kind, risk: Risk)
      ensures View() == NewItem(kind, risk)
    {
      this.kind, this.risk, status := kind, risk, Draft;
      validation, confirmation, result := None, None, None;
    }

    method RecordValidation(issues: seq<Severity>) returns (problem: Option<Problem>)
      modifies this
      ensures View() == After(old(View()), Validate(issues))
      ensures problem == Refusal(old(View()), Validate(issues))
    {
      if Settled(status) { return Some(InvalidTransition); }
      var report := NewReport(issues);
      status := if report.valid then AwaitingConfirmation else Draft;
      validation, confirmation := Some(report), None;
      return None;
    }

    method ConfirmBy(e: Evidence) returns (problem: Option<Problem>)
      modifies this
      ensures View() == After(old(View()), Confirm(e))
      ensures problem == Refusal(old(View()), Confirm(e))
    {
      if status != AwaitingConfirmation { return Some(InvalidTransition); }
      if !(validation.Some? && validation.value.valid) { return Some(ValidationRequired); }
      if !IsHuman(e) { return Some(HumanRequired); }
      if NoteNeeded(kind, risk) && !HasNote(e) { return Some(NoteRequired); }
      if TwoPeopleNeeded(kind, risk) && |Approvers(e)| < 2 { return Some(TwoPeopleRequired); }
      confirmation, status := Some(e), Confirmed;
      return None;
    }

    method RejectBy(actor: string, reason: string) returns (problem: Option<Problem>)
      modifies this
      ensures View() == After(old(View()), Reject(actor, reason))
      ensures problem == Refusal(old(View()), Reject(actor, reason))
    {
      if Settled(status) { return Some(InvalidTransition); }
      if Trim(actor) == "" || NamesMachine(actor) { return Some(HumanRequired); }
      if Trim(reason) == "" { return Some(NoteRequired); }
      status, confirmation, result := Rejected, None, Some(RejectedBy(actor, reason));
      return None;
    }

    method StartRunning() returns (problem: Option<Problem>)
      modifies this
      ensures View() == After(old(View()), Start)
      ensures problem == Refusal(old(View()), Start)
    {
      if status != Confirmed { return Some(InvalidTransition); }
      status := Running;
      return None;
    }

    method FinishRunning(success: bool, detail: string) returns (problem: Option<Problem>)
      modifies this
      ensures View() == After(old(View()), Finish(success, detail))
      ensures problem == Refusal(old(View()), Finish(success, detail))
    {
      if status != Running { return Some(InvalidTransition); }
      status, result := if success then Succeeded else Failed, Some(Finished(detail));
      return None;
    }
  }

  function Refusal(item: Item, action: Action): Option<Problem> {
    match Step(item, action) case Ok(_) => None case Err(p) => Some(p)
  }

  // ----- what every run keeps

  /** States reached only through a confirmation. */
  predicate PastConfirmation(s: Status) {
    s == Confirmed || s == Running || s == Succeeded || s == Failed
  }

  /** What the policy asks of a confirmation. */
  predicate Suffices(e: Evidence, kind: Kind, risk: Risk) {
    && IsHuman(e)
    && (NoteNeeded(kind, risk) ==> HasNote(e))
    && (TwoPeopleNeeded(kind, risk) ==> |Approvers(e)| >= 2)
  }

  ghost predicate WellGoverned(item: Item) {
    && (item.result.Some? <==> Terminal(item.status))
    && (item.confirmation.Some? <==> PastConfirmation(item.status))
    && (item.confirmation.Some? ==> Suffices(item.confirmation.value, item.kind, item.risk))
    && (PastConfirmation(item.status) || item.status == AwaitingConfirmation ==>
          item.validation.Some? && Error !in item.validation.value.issues)
    && (item.validation.Some? ==> (item.validation.value.valid <==> Error !in item.validation.value.issues))
    && (item.status == Draft ==> item.validation.None? || !item.validation.value.valid)
  }

  lemma ActionKeepsGoverned(item: Item, action: Action)
    requires WellGoverned(item)
    ensures WellGoverned(After(item, action)) && After(item, action).kind == item.kind
    ensures After(item, action).risk == item.risk
    ensures After(item, action).status == Succeeded ==> item.status == Succeeded || action.Finish?
  {
  }

  /** MAIN: in every run a result is set exactly in terminal states, a confirmation exactly past
      confirmation, and then the report holds no error and the evidence meets the policy. */
  lemma {:induction false} RunsAreWellGoverned(kind: Kind, risk: Risk, actions: seq<Action>)
    ensures var item := Run(NewItem(kind, risk), actions);
            WellGoverned(item) && item.kind == kind && item.risk == risk
  {
    if actions == [] {
      assert WellGoverned(NewItem(kind, risk));
    } else {
      hide After, WellGoverned;
      var n := |actions| - 1;
      RunsAreWellGoverned(kind, risk, actions[..n]);
      ActionKeepsGoverned(Run(NewItem(kind, risk), actions[..n]), actions[n]);
    }
  }

  /** A confirmation of a well-governed item is accepted exactly when it awaits one and the
      evidence meets the policy. */
  lemma ConfirmExact(item: Item, e: Evidence)
    requires WellGoverned(item)
    ensures Step(item, Confirm(e)).Ok? <==> item.status == AwaitingConfirmation && Suffices(e, item.kind, item.risk)
    ensures Step(item, Confirm(e)).Ok? ==>
              Step(item, Confirm(e)).item == item.(status := Confirmed, confirmation := Some(e))
  {
  }

  /** Work that nobody has settled: a draft, or waiting for or holding a confirmation. */
  predicate Unsettled(item: Item) {
    item.status in {Draft, AwaitingConfirmation, Confirmed}
  }

  /** A validation is accepted exactly while the item is unsettled, confirmed or not. It records the
      issues, voids any confirmation, and asks for a new one exactly when no issue is an error. */
  lemma ValidateExact(item: Item, issues: seq<Severity>)
    ensures var r := Step(item, Validate(issues));
            && (r.Ok? <==> Unsettled(item))
            && (r.Ok? ==> r.item.status == if Error in issues then Draft else AwaitingConfirmation)
            && (r.Ok? ==> r.item.validation == Some(Report(Error !in issues, issues)) && r.item.confirmation == None)
            && (r.Ok? ==> r.item.kind == item.kind && r.item.risk == item.risk && r.item.result == item.result)
  {
  }

  /** A rejection is accepted exactly while the item is unsettled, from a named actor that is no
      machine and with a reason; it records who and why. */
  lemma RejectExact(item: Item, actor: string, reason: string)
    ensures var r := Step(item, Reject(actor, reason));
            && (r.Ok? <==> Unsettled(item) && Trim(actor) != "" && !NamesMachine(actor) && Trim(reason) != "")
            && (r.Ok? ==> r.item.status == Rejected && r.item.result == Some(RejectedBy(actor, reason)))
            && (r.Ok? ==> r.item.confirmation == None && r.item.validation == item.validation)
  {
  }

  /** Exactly a confirmed item starts, and exactly a running one finishes, as it was told. */
  lemma RunningExact(item: Item, success: bool, detail: string)
    ensures var r := Step(item, Start);
            (r.Ok? <==> item.status == Confirmed) && (r.Ok? ==> r.item == item.(status := Running))
    ensures var r := Step(item, Finish(success, detail));
            && (r.Ok? <==> item.status == Running)
            && (r.Ok? ==> r.item.status == (if success then Succeeded else Failed))
            && (r.Ok? ==> r.item.result == Some(Finished(detail)))
            && (r.Ok? ==> r.item.confirmation == item.confirmation && r.item.validation == item.validation)
  {
  }

  /** Terminal states absorb everything, and revalidation always voids a confirmation. */
  lemma TerminalAbsorbs(item: Item, action: Action)
    ensures Terminal(item.status) ==> Step(item, action).Err? && After(item, action) == item
    ensures action.Validate? && Step(item, action).Ok? ==>
              Step(item, action).item.confirmation.None? && !PastConfirmation(Step(item, action).item.status)
  {
  }

  lemma {:induction false} TerminalForever(item: Item, actions: seq<Action>)
    requires Terminal(item.status)
    ensures Run(item, actions) == item
  {
    if actions != [] { TerminalForever(item, actions[..|actions| - 1]); }
  }

  // ----- confirmation comes after the report it confirms

  ghost predicate Accepted(item: Item, actions: seq<Action>, k: nat)
    requires k < |actions|
  {
    Step(Run(item, actions[..k]), actions[k]).Ok?
  }

  /** In the history, action `v` recorded the item's report and action `c`, after it, the item's
      confirmation; nothing was validated in between or since. */
  ghost predicate ConfirmedAfterReport(start: Item, actions: seq<Action>, v: nat, c: nat) {
    var item := Run(start, actions);
    && v < c < |actions|
    && actions[v].Validate? && Accepted(start, actions, v) && item.validation == Some(NewReport(actions[v].issues))
    && actions[c].Confirm? && Accepted(start, actions, c) && item.confirmation == Some(actions[c].evidence)
    && forall k :: v < k < |actions| && actions[k].Validate? ==> !Accepted(start, actions, k)
  }

  ghost predicate ReportedAt(start: Item, actions: seq<Action>, v: nat) {
    && v < |actions| && actions[v].Validate? && Accepted(start, actions, v)
    && Run(start, actions).validation == Some(NewReport(actions[v].issues))
    && forall k :: v < k < |actions| && actions[k].Validate? ==> !Accepted(start, actions, k)
  }

  /** One more action adds one more place to the history and changes no earlier one. */
  lemma HistoryGrows(start: Item, actions: seq<Action>)
    requires actions != []
    ensures var n := |actions|;
            var before := actions[..n - 1];
            && (Accepted(start, actions, n - 1) <==> Step(Run(start, before), actions[n - 1]).Ok?)
            && Run(start, actions) == After(Run(start, before), actions[n - 1])
            && forall k :: 0 <= k < n - 1 ==>
                 before[k] == actions[k] && (Accepted(start, before, k) <==> Accepted(start, actions, k))
  {
    var before := actions[..|actions| - 1];
    forall k | 0 <= k < |before|
      ensures before[k] == actions[k] && (Accepted(start, before, k) <==> Accepted(start, actions, k))
    {
      assert before[..k] == actions[..k];
    }
  }

  /** Only validation changes the report; a state past confirmation is entered by confirming
      and kept only by starting and finishing. */
  lemma WhatChanges(item: Item, action: Action)
    ensures After(item, action).validation ==
              if action.Validate? && Step(item, action).Ok? then Some(NewReport(action.issues)) else item.validation
    ensures PastConfirmation(After(item, action).status) ==> !(action.Validate? && Step(item, action).Ok?)
    ensures PastConfirmation(After(item, action).status) ==>
              if action.Confirm? && Step(item, action).Ok?
              then After(item, action).confirmation == Some(action.evidence) && item.validation.Some?
              else After(item, action).confirmation == item.confirmation && PastConfirmation(item.status)
  {
  }

  lemma ReportIsNew(start: Item, actions: seq<Action>)
    requires actions != [] && actions[|actions| - 1].Validate? && Accepted(start, actions, |actions| - 1)
    ensures ReportedAt(start, actions, |actions| - 1)
  {
    hide Run, Step, After, Accepted;
    HistoryGrows(start, actions);
    WhatChanges(Run(start, actions[..|actions| - 1]), actions[|actions| - 1]);
  }

  lemma ReportStays(start: Item, actions: seq<Action>, v: nat)
    requires actions != [] && ReportedAt(start, actions[..|actions| - 1], v)
    requires !(actions[|actions| - 1].Validate? && Accepted(start, actions, |actions| - 1))
    ensures ReportedAt(start, actions, v)
  {
    hide Run, Step, After, Accepted;
    HistoryGrows(start, actions);
    WhatChanges(Run(start, actions[..|actions| - 1]), actions[|actions| - 1]);
  }

  lemma NotYetReported(kind: Kind, risk: Risk, actions: seq<Action>)
    requires Run(NewItem(kind, risk), actions).validation.Some?
    ensures actions != []
    ensures var before, last := actions[..|actions| - 1], actions[|actions| - 1];
            !(last.Validate? && Accepted(NewItem(kind, risk), actions, |actions| - 1)) ==>
              Run(NewItem(kind, risk), before).validation.Some?
  {
    assert actions != [];
    hide Run, Step, After, Accepted;
    HistoryGrows(NewItem(kind, risk), actions);
    WhatChanges(Run(NewItem(kind, risk), actions[..|actions| - 1]), actions[|actions| - 1]);
  }

  /** Every recorded report has its place in the history. */
  lemma {:induction false} ReportHasSource(kind: Kind, risk: Risk, actions: seq<Action>) returns (v: nat)
    requires Run(NewItem(kind, risk), actions).validation.Some?
    ensures ReportedAt(NewItem(kind, risk), actions, v)
  {
    hide *;
    NotYetReported(kind, risk, actions);
    var start, n := NewItem(kind, risk), |actions|;
    if actions[n - 1].Validate? && Accepted(start, actions, n - 1) {
      v := n - 1;
      ReportIsNew(start, actions);
    } else {
      v := ReportHasSource(kind, risk, actions[..n - 1]);
      ReportStays(start, actions, v);
    }
  }

  lemma ConfirmedNow(start: Item, actions: seq<Action>, v: nat)
    requires actions != [] && ReportedAt(start, actions[..|actions| - 1], v)
    requires actions[|actions| - 1].Confirm? && Accepted(start, actions, |actions| - 1)
    requires PastConfirmation(Run(start, actions).status)
    ensures ConfirmedAfterReport(start, actions, v, |actions| - 1)
  {
    hide Run, Step, After, Accepted;
    HistoryGrows(start, actions);
    WhatChanges(Run(start, actions[..|actions| - 1]), actions[|actions| - 1]);
  }

  lemma ConfirmedStays(start: Item, actions: seq<Action>, v: nat, c: nat)
    requires actions != [] && ConfirmedAfterReport(start, actions[..|actions| - 1], v, c)
    requires !(actions[|actions| - 1].Confirm? && Accepted(start, actions, |actions| - 1))
    requires PastConfirmation(Run(start, actions).status)
    ensures ConfirmedAfterReport(start, actions, v, c)
  {
    hide Run, Step, After, Accepted;
    HistoryGrows(start, actions);
    WhatChanges(Run(start, actions[..|actions| - 1]), actions[|actions| - 1]);
  }

  lemma PastBefore(start: Item, actions: seq<Action>)
    requires actions != [] && PastConfirmation(Run(start, actions).status)
    ensures var before, last := Run(start, actions[..|actions| - 1]), actions[|actions| - 1];
            if last.Confirm? && Accepted(start, actions, |actions| - 1)
            then before.validation.Some? else PastConfirmation(before.status)
  {
    hide Run, Step, After, Accepted;
    HistoryGrows(start, actions);
    WhatChanges(Run(start, actions[..|actions| - 1]), actions[|actions| - 1]);
  }

  lemma NoErrorPast(kind: Kind, risk: Risk, actions: seq<Action>)
    requires PastConfirmation(Run(NewItem(kind, risk), actions).status)
    ensures var item := Run(NewItem(kind, risk), actions);
            actions != [] && item.validation.Some? && Error !in item.validation.value.issues
  {
    RunsAreWellGoverned(kind, risk, actions);
  }

  /** MAIN: whenever an item is past confirmation, its history holds the report it carries, which
      has no error, and, later, the confirmation it carries, with no validation after that report. */
  lemma {:induction false} ConfirmationFollowsReport(kind: Kind, risk: Risk, actions: seq<Action>)
    returns (v: nat, c: nat)
    requires PastConfirmation(Run(NewItem(kind, risk), actions).status)
    ensures ConfirmedAfterReport(NewItem(kind, risk), actions, v, c) && Error !in actions[v].issues
  {
    NoErrorPast(kind, risk, actions);
    hide Run, Step, After, Accepted, PastConfirmation;
    var start, n := NewItem(kind, risk), |actions|;
    PastBefore(start, actions);
    if actions[n - 1].Confirm? && Accepted(start, actions, n - 1) {
      c := n - 1;
      v := ReportHasSource(kind, risk, actions[..n - 1]);
      ConfirmedNow(start, actions, v);
    } else {
      v, c := ConfirmationFollowsReport(kind, risk, actions[..n - 1]);
      ConfirmedStays(start, actions, v, c);
    }
  }

  // ----- where rejecting is laxer than confirming

  lemma {:induction false} TrimEndKeeps(p: string, s: string)
    requires p != "" && !IsWhitespace(p[|p| - 1]) && p <= s
    ensures p <= TrimEnd(s)
  {
    if IsWhitespace(s[|s| - 1]) {
      assert |s| > |p|;
      TrimEndKeeps(p, s[..|s| - 1]);
    }
  }

  /** Rejecting looks for the machine prefix before trimming, confirming after: the two checks
      disagree exactly on a machine name behind leading blanks, which may reject but not confirm. */
  lemma RejectCheckIsLaxer(actor: string)
    ensures HumanActor(Trim(actor)) ==> Trim(actor) != "" && !NamesMachine(actor)
    ensures (Trim(actor) != "" && !NamesMachine(actor)) && !HumanActor(Trim(actor)) <==>
              NamesMachine(Trim(actor)) && !NamesMachine(actor)
  {
    if "agent:" <= actor { TrimEndKeeps("agent:", actor); }
    if "model:" <= actor { TrimEndKeeps("model:", actor); }
  }

  /** The actor a handler passes on: trimmed, and refused when empty or longer than 120 characters. */
  function HandlerActor(name: string): Option<string> {
    var actor := Trim(name);
    if actor == "" || |actor| > 120 then None else Some(actor)
  }

  /** The handlers trim the name first, and on trimmed names the two checks agree: nobody rejects
      through a handler who could not confirm. */
  lemma HandlersRejectAsTheyConfirm(item: Item, name: string, reason: string)
    requires HandlerActor(name).Some?
    ensures var actor := HandlerActor(name).value;
            && (Trim(actor) != "" && !NamesMachine(actor) <==> HumanActor(Trim(actor)))
            && (Step(item, Reject(actor, reason)).Ok? <==>
                  !Settled(item.status) && IsHuman(Evidence(name, None, None)) && Trim(reason) != "")
  {
    TrimTwice(name);
  }

  /** The library function itself, called with an untrimmed name. */
  lemma PaddedAgentMayReject(kind: Kind, risk: Risk)
    ensures Step(NewItem(kind, risk), Reject(" agent:a", "no")).Ok?
    ensures !IsHuman(Evidence(" agent:a", None, None))
  {
    assert Trim("no") == "no";
    assert TrimEnd(" agent:a") == " agent:a";
    assert " agent:a"[1..] == "agent:a";
    assert TrimStart(" agent:a") == "agent:a";
  }
}
