/**
 The management view's decisions: which page `render` shows, and what the
 register, service-control and save-settings buttons do.
 */
module Lifecycle {
  import opened Text
  import opened JsValues
  import opened Commands
  import opened ConfigStore

  // ---------------------------------------------------------------------------
  // Page selection
  // ---------------------------------------------------------------------------

  datatype Page = InstallPage | NotRegisteredPage | NormalPage

  /** `uci.sections(...).forEach(s => sectionName = s['.name'])`: the last section wins. */
  function SectionName(names: seq<string>): (r: Option<string>)
    ensures r.None? <==> names == []
    ensures r.Some? ==> r.value == names[|names| - 1]
  {
    if names == [] then None else Some(names[|names| - 1])
  }

  /** A section name that passes the handlers' `if (!sectionName)` test. */
  predicate IsSection(section: Option<string>) {
    section.Some? && section.value != ""
  }

  const AgentIdOption: string := "agent_id"
  const EnabledOption: string := "enabled"

  /** `uci.get('nping-agent', sectionName, 'agent_id') || ''`, or `''` without a section. */
  function AgentIdOf(section: Option<string>, st: Store): string {
    if IsSection(section) then Get(st, (section.value, AgentIdOption)).GetOr("") else ""
  }

  /**
   `render`'s choice, in order: no binary gives the install page; otherwise an
   empty or whitespace-only `agent_id` gives the not-registered page;
   otherwise the normal page.
   */
  function SelectPage(binaryExists: bool, section: Option<string>, st: Store): (p: Page)
    ensures p == InstallPage <==> !binaryExists
    ensures p == NotRegisteredPage <==> binaryExists && IsBlank(AgentIdOf(section, st))
    ensures p == NormalPage <==> binaryExists && !IsBlank(AgentIdOf(section, st))
  {
    if !binaryExists then InstallPage
    else if Trim(AgentIdOf(section, st)) == [] then NotRegisteredPage
    else NormalPage
  }

  /**
   Without any `nping-agent` section there is no agent id to read: an
   installed agent shows the not-registered page, and the service button
   never starts anything.
   */
  lemma NoSectionMeansUnregistered(names: seq<string>, st: Store, run: Runner)
    requires names == []
    ensures SelectPage(true, SectionName(names), st) == NotRegisteredPage
    ensures forall id :: StartAgent(id) !in ToggleService(SectionName(names), st, run).issued
  {
    assert IsBlank("");
  }

  // ---------------------------------------------------------------------------
  // Registration
  // ---------------------------------------------------------------------------

  /** The country code the view always registers with. */
  const Country: string := "CN"

  /** A form value that passes `if (!v || v.trim() === '')`. */
  predicate Filled(v: Option<string>) {
    v.Some? && !IsBlank(v.value)
  }

  /** `result && result.data`, converted to the string stored as `agent_id`. */
  function ResponseAgentId(response: JsValue): (id: Option<string>)
    ensures id.Some? <==> response.Obj? && "data" in response.fields && Truthy(response.fields["data"])
    ensures id.Some? && response.fields["data"].Str? ==> id.value == response.fields["data"].s
  {
    if Truthy(response) && Truthy(Field(response, "data")) then Some(ToString(Field(response, "data")))
    else None
  }

  /** `result && result.message ? result.message : 'Unknown error'`. */
  function RejectionReason(response: JsValue): (reason: string)
    ensures (response.Obj? && "message" in response.fields && response.fields["message"].Str?
             && Truthy(response.fields["message"])) ==> reason == response.fields["message"].s
    ensures !(response.Obj? && "message" in response.fields && Truthy(response.fields["message"])) ==>
      reason == "Unknown error"
  {
    if Truthy(response) && Truthy(Field(response, "message")) then ToString(Field(response, "message"))
    else "Unknown error"
  }

  datatype RegisterOutcome =
    | NoSection
    | InvalidKey
    | InvalidName
    | RegisterCallFailed
    | RegisterFailed(failure: Failure)
    | ResponseUnparsable
    | RegistrationRejected(reason: string)
    | Registered(commit: CommitOutcome)

  /** The command the register button runs for the given form values. */
  function RegisterCommand(key: Option<string>, name: Option<string>): Command {
    RegisterNode(key.GetOr(""), name.GetOr(""), Country)
  }

  /** The helper answered with exit code 0, a parsable body and a truthy `data`. */
  predicate Accepted(res: Option<ExecResult>, parse: string -> Option<JsValue>) {
    res.Some? && res.value.code == 0 && parse(res.value.stdout).Some?
    && ResponseAgentId(parse(res.value.stdout).value).Some?
  }

  /**
   The register button: validate, run the register helper once, interpret its
   answer and, when it carries an agent id, commit `enabled = 1` and
   `agent_id` through the commit guard.
   */
  method RegisterAgent(section: Option<string>, key: Option<string>, name: Option<string>,
                       run: Runner, parse: string -> Option<JsValue>, st: Store)
    returns (outcome: RegisterOutcome, issued: seq<Command>, st': Store)
    ensures outcome == NoSection <==> !IsSection(section)
    ensures outcome == InvalidKey <==> IsSection(section) && !Filled(key)
    ensures outcome == InvalidName <==> IsSection(section) && Filled(key) && !Filled(name)
    ensures issued == [] <==> !(IsSection(section) && Filled(key) && Filled(name))
    ensures issued != [] ==> issued == [RegisterCommand(key, name)]
    ensures outcome.RegisterFailed? <==>
      issued != [] && run(issued[0]).Some? && run(issued[0]).value.code != 0
    ensures outcome.RegisterFailed? ==> outcome.failure == Classify(RegisterOp, run(issued[0]).value.stderr)
    ensures outcome == RegisterCallFailed <==> issued != [] && run(issued[0]).None?
    ensures outcome == ResponseUnparsable <==>
      issued != [] && run(issued[0]).Some? && run(issued[0]).value.code == 0 && parse(run(issued[0]).value.stdout).None?
    ensures outcome.RegistrationRejected? <==>
      issued != [] && run(issued[0]).Some? && run(issued[0]).value.code == 0 && parse(run(issued[0]).value.stdout).Some?
      && ResponseAgentId(parse(run(issued[0]).value.stdout).value).None?
    ensures outcome.RegistrationRejected? ==>
      outcome.reason == RejectionReason(parse(run(issued[0]).value.stdout).value)
    ensures outcome.Registered? <==> issued != [] && Accepted(run(issued[0]), parse)
    ensures outcome.Registered? ==> (HasPending(st) ==> outcome.commit == PendingConflict)
    ensures outcome.Registered? && !HasPending(st) ==>
      var id := ResponseAgentId(parse(run(issued[0]).value.stdout).value).value;
      outcome.commit == (if AlreadyHolds(st, RegistrationWrites(section.value, id)) then NothingModified else Applied)
    ensures outcome != Registered(Applied) ==> st' == st
    ensures outcome == Registered(Applied) ==>
      var id := ResponseAgentId(parse(run(issued[0]).value.stdout).value).value;
      && !HasPending(st')
      && Get(st', (section.value, AgentIdOption)) == Some(id)
      && Get(st', (section.value, EnabledOption)) == Some("1")
      && (forall k :: k != (section.value, AgentIdOption) && k != (section.value, EnabledOption) ==> Get(st', k) == Get(st, k))
  {
    st' := st;
    if !IsSection(section) {
      return NoSection, [], st;
    }
    if key.None? || Trim(key.value) == [] {
      return InvalidKey, [], st;
    }
    if name.None? || Trim(name.value) == [] {
      return InvalidName, [], st;
    }
    var cmd := RegisterNode(key.value, name.value, Country);
    issued := [cmd];
    match run(cmd)
    case None =>
      outcome := RegisterCallFailed;
    case Some(res) =>
      if res.code != 0 {
        outcome := RegisterFailed(Classify(RegisterOp, res.stderr));
      } else {
        match parse(res.stdout)
        case None =>
          outcome := ResponseUnparsable;
        case Some(response) =>
          match ResponseAgentId(response)
          case None =>
            outcome := RegistrationRejected(RejectionReason(response));
          case Some(id) =>
            var commit;
            commit, st' := CommitRegistration(section.value, id, st);
            outcome := Registered(commit);
      }
  }

  /** The two options a successful registration writes. */
  function RegistrationWrites(sec: string, id: string): seq<(Key, string)> {
    [((sec, EnabledOption), "1"), ((sec, AgentIdOption), id)]
  }

  /** Commit `enabled = 1` and `agent_id = id` in section `sec` through the commit guard. */
  method CommitRegistration(sec: string, id: string, st: Store) returns (commit: CommitOutcome, st': Store)
    ensures HasPending(st) ==> commit == PendingConflict
    ensures !HasPending(st) ==>
      commit == (if AlreadyHolds(st, RegistrationWrites(sec, id)) then NothingModified else Applied)
    ensures commit != Applied ==> st' == st
    ensures commit == Applied ==>
      && !HasPending(st')
      && Get(st', (sec, AgentIdOption)) == Some(id)
      && Get(st', (sec, EnabledOption)) == Some("1")
      && (forall k :: k != (sec, AgentIdOption) && k != (sec, EnabledOption) ==> Get(st', k) == Get(st, k))
  {
    var writes := RegistrationWrites(sec, id);
    assert |AgentIdOption| != |EnabledOption|;
    commit, st' := CommitGuarded(st, writes);
    if commit == Applied {
      assert Written(writes, (sec, AgentIdOption)) == Some(id);
      assert Written(writes, (sec, EnabledOption)) == Some("1");
      forall k | k != (sec, AgentIdOption) && k != (sec, EnabledOption)
        ensures Get(st', k) == Get(st, k)
      {
        assert AfterWrites(st, writes, k) == Get(st, k);
      }
    }
  }

  /** After a successful registration the page shows as registered unless the new id is blank. */
  lemma RegisteredPage(section: Option<string>, id: string, st': Store)
    requires IsSection(section) && Get(st', (section.value, AgentIdOption)) == Some(id)
    ensures SelectPage(true, section, st') == (if IsBlank(id) then NotRegisteredPage else NormalPage)
  {
    assert AgentIdOf(section, st') == id;
  }

  // ---------------------------------------------------------------------------
  // Service control
  // ---------------------------------------------------------------------------

  datatype ToggleOutcome =
    | StatusCheckFailed
    | StopCallFailed
    | StopFailed(stderr: string)
    | Stopped
    | MissingAgentId
    | StartCallFailed
    | StartFailed(failure: Failure)
    | Started

  /**
   The service-control button: probe the init script afresh, then stop a
   running service, or start a stopped one with the configured `agent_id`.
   The label the page was rendered with plays no part.
   */
  function ToggleService(section: Option<string>, st: Store, run: Runner): (r: Run<ToggleOutcome>)
    ensures |r.issued| >= 1 && r.issued[0] == ServiceStatus
    ensures run(ServiceStatus).None? <==> r.outcome == StatusCheckFailed
    ensures ServiceStop in r.issued <==> run(ServiceStatus).Some? && ReportsRunning(run(ServiceStatus).value)
    ensures (exists id :: StartAgent(id) in r.issued) <==>
      run(ServiceStatus).Some? && !ReportsRunning(run(ServiceStatus).value) && AgentIdOf(section, st) != ""
    ensures |r.issued| == 2 ==> r.issued[1] == (if ServiceStop in r.issued then ServiceStop else StartAgent(AgentIdOf(section, st)))
    ensures |r.issued| <= 2
    ensures r.outcome == MissingAgentId <==>
      run(ServiceStatus).Some? && !ReportsRunning(run(ServiceStatus).value) && AgentIdOf(section, st) == ""
    ensures r.outcome == MissingAgentId ==> r.issued == [ServiceStatus]
    ensures r.outcome == Stopped <==>
      r.issued == [ServiceStatus, ServiceStop] && run(ServiceStop).Some? && run(ServiceStop).value.code == 0
    ensures r.outcome == StopCallFailed <==> ServiceStop in r.issued && run(ServiceStop).None?
    ensures r.outcome.StopFailed? <==>
      ServiceStop in r.issued && run(ServiceStop).Some? && run(ServiceStop).value.code != 0
    ensures r.outcome.StopFailed? ==> r.outcome.stderr == run(ServiceStop).value.stderr
    ensures r.outcome == StartCallFailed <==>
      |r.issued| == 2 && r.issued[1].StartAgent? && run(r.issued[1]).None?
    ensures r.outcome == Started <==>
      |r.issued| == 2 && r.issued[1].StartAgent? && run(r.issued[1]).Some? && ReportsSuccess(run(r.issued[1]).value)
    ensures r.outcome.StartFailed? ==>
      |r.issued| == 2 && r.issued[1].StartAgent? && run(r.issued[1]).Some?
      && !ReportsSuccess(run(r.issued[1]).value)
      && r.outcome.failure == Classify(StartOp, run(r.issued[1]).value.stderr)
  {
    match run(ServiceStatus)
    case None => Run(StatusCheckFailed, [ServiceStatus])
    case Some(probe) =>
      if ReportsRunning(probe) then
        var issued := [ServiceStatus, ServiceStop];
        match run(ServiceStop)
        case None => Run(StopCallFailed, issued)
        case Some(res) =>
          if res.code != 0 then Run(StopFailed(res.stderr), issued) else Run(Stopped, issued)
      else
        var agentId := AgentIdOf(section, st);
        if agentId == "" then Run(MissingAgentId, [ServiceStatus])
        else
          var cmd := StartAgent(agentId);
          var issued := [ServiceStatus, cmd];
          match run(cmd)
          case None => Run(StartCallFailed, issued)
          case Some(res) =>
            if !ReportsSuccess(res) then Run(StartFailed(Classify(StartOp, res.stderr)), issued)
            else Run(Started, issued)
  }

  /**
   On the normal page the start branch always has an agent id: the page is
   only shown for a non-blank `agent_id`, so `MissingAgentId` cannot occur
   while the store is unchanged.
   */
  lemma NormalPageNeverLacksAgentId(section: Option<string>, st: Store, run: Runner)
    requires SelectPage(true, section, st) == NormalPage
    ensures ToggleService(section, st, run).outcome != MissingAgentId
  {
  }

  /**
   Two clicks in a row cannot both start the service when the second probe
   sees it running: the decision follows the probe each time.
   */
  lemma ToggleFollowsFreshProbe(section: Option<string>, st: Store, run: Runner)
    requires run(ServiceStatus).Some? && ReportsRunning(run(ServiceStatus).value)
    ensures forall id :: StartAgent(id) !in ToggleService(section, st, run).issued
  {
  }

  /**
   After a registration is applied, starting a stopped service runs the start
   helper with exactly the agent id the registration stored.
   */
  lemma StartUsesRegisteredId(section: Option<string>, id: string, st: Store, run: Runner)
    requires IsSection(section) && Get(st, (section.value, AgentIdOption)) == Some(id) && id != ""
    requires run(ServiceStatus).Some? && !ReportsRunning(run(ServiceStatus).value)
    ensures ToggleService(section, st, run).issued == [ServiceStatus, StartAgent(id)]
  {
  }

  // ---------------------------------------------------------------------------
  // Save settings
  // ---------------------------------------------------------------------------

  datatype SaveOutcome = SaveNoSection | Saved(commit: CommitOutcome)

  /** The save-settings button: write `enabled` through the commit guard. */
  method SaveSettings(section: Option<string>, enabled: string, st: Store) returns (outcome: SaveOutcome, st': Store)
    ensures !IsSection(section) ==> outcome == SaveNoSection
    ensures IsSection(section) && HasPending(st) ==> outcome == Saved(PendingConflict)
    ensures IsSection(section) && !HasPending(st) ==>
      (outcome == Saved(NothingModified) <==> Get(st, (section.value, EnabledOption)) == Some(enabled))
    ensures IsSection(section) && !HasPending(st) && Get(st, (section.value, EnabledOption)) != Some(enabled) ==>
      outcome == Saved(Applied)
    ensures outcome != Saved(Applied) ==> st' == st
    ensures outcome == Saved(Applied) ==>
      && IsSection(section)
      && !HasPending(st')
      && Get(st', (section.value, EnabledOption)) == Some(enabled)
      && forall k :: k != (section.value, EnabledOption) ==> Get(st', k) == Get(st, k)
    ensures forall b :: SelectPage(b, section, st') == SelectPage(b, section, st)
  {
    if !IsSection(section) {
      return SaveNoSection, st;
    }
    var key := (section.value, EnabledOption);
    var commit;
    commit, st' := CommitGuarded(st, [(key, enabled)]);
    outcome := Saved(commit);
    assert AlreadyHolds(st, [(key, enabled)]) <==> Get(st, key) == Some(enabled) by {
      var w := [(key, enabled)];
      assert w[0] == (key, enabled);
    }
    if commit == Applied {
      assert |AgentIdOption| != |EnabledOption|;
      forall k | k != key ensures Get(st', k) == Get(st, k) {
        assert AfterWrites(st, [(key, enabled)], k) == Get(st, k);
      }
      assert AgentIdOf(section, st') == AgentIdOf(section, st);
    }
  }
}
