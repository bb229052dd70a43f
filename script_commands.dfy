/** The in-memory registry of running scripts kept by ScriptCommandService:
  * a list of tasks, appended on a successful start, looked up by GUID
  * (purging completed tasks) and flipped to Success by the exit hook. */
module ScriptCommands {
  import opened Wrappers
  import opened Commands

  /** COMPLETED_STATUS: the statuses a purging lookup removes. */
  predicate IsCompleted(s: CommandStatus)
  {
    s == Success || s == Failure || s == Removed
  }

  predicate HasGuid(tasks: seq<CommandTask>, guid: string)
  {
    exists i :: 0 <= i < |tasks| && tasks[i].commandGuid == guid
  }

  /** Position of the first task with the GUID (Where(...).FirstOrDefault()). */
  function FirstIndex(tasks: seq<CommandTask>, guid: string): (r: Option<nat>)
    ensures r.None? <==> !HasGuid(tasks, guid)
    ensures r.Some? ==> r.value < |tasks| && tasks[r.value].commandGuid == guid
                        && forall i :: 0 <= i < r.value ==> tasks[i].commandGuid != guid
  {
    if tasks == [] then None
    else if tasks[0].commandGuid == guid then Some(0)
    else
      match FirstIndex(tasks[1..], guid)
      case None =>
        assert forall i :: 1 <= i < |tasks| ==> tasks[i] == tasks[1..][i - 1];
        None
      case Some(k) =>
        assert tasks[k + 1] == tasks[1..][k];
        assert forall i :: 1 <= i < k + 1 ==> tasks[i] == tasks[1..][i - 1];
        Some(k + 1)
  }

  /** The first position characterizes FirstIndex. */
  lemma FirstIndexAt(tasks: seq<CommandTask>, guid: string, i: nat)
    requires i < |tasks| && tasks[i].commandGuid == guid
    requires forall j :: 0 <= j < i ==> tasks[j].commandGuid != guid
    ensures FirstIndex(tasks, guid) == Some(i)
  {
    var r := FirstIndex(tasks, guid);
    assert r.Some?;
    assert !(r.value < i);
  }

  function RemoveAt<T>(s: seq<T>, i: nat): (r: seq<T>)
    requires i < |s|
    ensures |r| == |s| - 1
    ensures forall j :: 0 <= j < i ==> r[j] == s[j]
    ensures forall j :: i <= j < |r| ==> r[j] == s[j + 1]
  {
    s[..i] + s[i + 1..]
  }

  /** The task ExecuteCommand returns: on a start, a Processing task with a
    * process (and, for json commands, the captured output); otherwise a
    * Rejected task without one. */
  function StartedTask(request: CommandTask, started: bool, json: bool,
                       stdout: string, stderr: string): (t: CommandTask)
    ensures t.commandGuid == request.commandGuid && t.command == request.command
    ensures t.hasProcess == started
    ensures t.status == (if started then Processing else Rejected)
    ensures !(started && json) ==> t.standardOut == "" && t.standardErr == ""
  {
    if started then
      CommandTask(request.commandGuid, request.command, true, Processing,
                  if json then stdout else "", if json then stderr else "")
    else CommandTask(request.commandGuid, request.command, false, Rejected, "", "")
  }

  /** The registry after ExecuteCommand: only a started task is appended. */
  function Registered(tasks: seq<CommandTask>, task: CommandTask): seq<CommandTask>
  {
    if task.hasProcess then tasks + [task] else tasks
  }

  /** What GetCommandTask returns: the first task with the GUID, or NoTask. */
  function LookupResult(tasks: seq<CommandTask>, guid: string): (r: Result<CommandTask, CommandError>)
    ensures r.Err? <==> !HasGuid(tasks, guid)
    ensures r.Err? ==> r.error == NoTask(guid)
    ensures r.Ok? ==> r.value in tasks && r.value.commandGuid == guid
  {
    match FirstIndex(tasks, guid)
    case None => Err(NoTask(guid))
    case Some(i) => Ok(tasks[i])
  }

  /** The registry after GetCommandTask: the first match is removed when it
    * is completed and purging was asked for. */
  function AfterLookup(tasks: seq<CommandTask>, guid: string, purge: bool): seq<CommandTask>
  {
    match FirstIndex(tasks, guid)
    case None => tasks
    case Some(i) => if IsCompleted(tasks[i].status) && purge then RemoveAt(tasks, i) else tasks
  }

  /** The registry after HandleExited: the first match becomes Success. */
  function AfterExit(tasks: seq<CommandTask>, guid: string): seq<CommandTask>
  {
    match FirstIndex(tasks, guid)
    case None => tasks
    case Some(i) => tasks[i := tasks[i].(status := Success)]
  }

  class ScriptCommandService {
    var tasks: seq<CommandTask>

    constructor()
      ensures tasks == []
    {
      tasks := [];
    }

    /** Start a script; `started` is the value proc.Start() returned and
      * stdout/stderr what a json command printed. */
    method ExecuteCommand(request: CommandTask, json: bool, started: bool,
                          stdout: string, stderr: string) returns (result: CommandTask)
      modifies this
      ensures result == StartedTask(request, started, json, stdout, stderr)
      ensures tasks == Registered(old(tasks), result)
    {
      if started {
        result := CommandTask(request.commandGuid, request.command, true, Processing, "", "");
        if json {
          result := result.(standardOut := stdout, standardErr := stderr);
        }
        tasks := tasks + [result];
        return;
      }
      result := CommandTask(request.commandGuid, request.command, false, Rejected, "", "");
    }

    method GetCommandTask(guid: string, purgeCompleted: bool) returns (result: Result<CommandTask, CommandError>)
      modifies this
      ensures result == LookupResult(old(tasks), guid)
      ensures tasks == AfterLookup(old(tasks), guid, purgeCompleted)
    {
      var found := FirstIndex(tasks, guid);
      if found.None? {
        return Err(NoTask(guid));
      }
      var i := found.value;
      var task := tasks[i];
      if IsCompleted(task.status) && purgeCompleted {
        tasks := tasks[..i] + tasks[i + 1..];
        return Ok(task);
      }
      return Ok(task);
    }

    method HandleExited(guid: string)
      modifies this
      ensures tasks == AfterExit(old(tasks), guid)
    {
      var found := FirstIndex(tasks, guid);
      if found.Some? {
        var i := found.value;
        tasks := tasks[i := tasks[i].(status := Success)];
      }
    }
  }

  // -----------------------------------------------------------------------
  // Properties of the registry
  // -----------------------------------------------------------------------

  /** A failed start leaves the registry as it was; a successful one appends
    * exactly one Processing task with the caller's GUID. */
  lemma StartRegistersOnce(tasks: seq<CommandTask>, request: CommandTask, started: bool,
                           json: bool, stdout: string, stderr: string)
    ensures var t := StartedTask(request, started, json, stdout, stderr);
            var after := Registered(tasks, t);
            (started ==> |after| == |tasks| + 1 && after[..|tasks|] == tasks
                         && after[|tasks|].commandGuid == request.commandGuid
                         && after[|tasks|].status == Processing)
            && (!started ==> after == tasks && t.status == Rejected)
  {
  }

  /** Only Processing and Success ever enter the registry. */
  predicate OnlyLive(tasks: seq<CommandTask>)
  {
    forall i :: 0 <= i < |tasks| ==> tasks[i].status == Processing || tasks[i].status == Success
  }

  lemma {:induction false} OnlyLivePreserved(tasks: seq<CommandTask>, request: CommandTask,
                                             started: bool, json: bool, stdout: string,
                                             stderr: string, guid: string, purge: bool)
    requires OnlyLive(tasks)
    ensures OnlyLive(Registered(tasks, StartedTask(request, started, json, stdout, stderr)))
    ensures OnlyLive(AfterExit(tasks, guid))
    ensures OnlyLive(AfterLookup(tasks, guid, purge))
  {
    var after := AfterLookup(tasks, guid, purge);
    match FirstIndex(tasks, guid)
    case None =>
    case Some(i) =>
      if IsCompleted(tasks[i].status) && purge {
        forall j | 0 <= j < |after|
          ensures after[j].status == Processing || after[j].status == Success
        {
          if j < i { assert after[j] == tasks[j]; } else { assert after[j] == tasks[j + 1]; }
        }
      }
  }

  /** Hence a lookup in a registry built by these operations never reports
    * Failure: the Failure branches after GetCommandTask cannot be taken. */
  lemma LookupNeverFailure(tasks: seq<CommandTask>, guid: string)
    requires OnlyLive(tasks)
    ensures LookupResult(tasks, guid).Ok? ==> LookupResult(tasks, guid).value.status != Failure
  {
    match FirstIndex(tasks, guid)
    case None =>
    case Some(i) => assert tasks[i].status == Processing || tasks[i].status == Success;
  }

  /** A purging lookup drops a completed first match and keeps everything
    * else in order; a lookup of a live task or without purge changes
    * nothing. */
  lemma {:induction false} LookupPurge(tasks: seq<CommandTask>, guid: string, purge: bool)
    requires HasGuid(tasks, guid)
    ensures var t := LookupResult(tasks, guid).value;
            var after := AfterLookup(tasks, guid, purge);
            (IsCompleted(t.status) && purge ==> |after| == |tasks| - 1 && multiset(after) + multiset{t} == multiset(tasks))
            && (!(IsCompleted(t.status) && purge) ==> after == tasks)
  {
    var i := FirstIndex(tasks, guid).value;
    if IsCompleted(tasks[i].status) && purge {
      assert tasks == tasks[..i] + [tasks[i]] + tasks[i + 1..];
    }
  }

  /** The exit hook changes the status of the first match only. */
  lemma ExitTouchesFirstMatch(tasks: seq<CommandTask>, guid: string)
    ensures |AfterExit(tasks, guid)| == |tasks|
    ensures !HasGuid(tasks, guid) ==> AfterExit(tasks, guid) == tasks
    ensures HasGuid(tasks, guid) ==>
              var i := FirstIndex(tasks, guid).value;
              AfterExit(tasks, guid)[i] == tasks[i].(status := Success)
              && forall j :: 0 <= j < |tasks| && j != i ==> AfterExit(tasks, guid)[j] == tasks[j]
  {
  }

  /** When a GUID was registered once, exit followed by a purging lookup
    * forgets it: a second lookup of the same GUID throws. */
  lemma {:induction false} ExitThenPurgeForgets(tasks: seq<CommandTask>, guid: string)
    requires HasGuid(tasks, guid)
    requires forall i, j :: 0 <= i < j < |tasks| ==> tasks[i].commandGuid == guid ==> tasks[j].commandGuid != guid
    ensures var after := AfterLookup(AfterExit(tasks, guid), guid, true);
            LookupResult(after, guid) == Err(NoTask(guid))
  {
    var i := FirstIndex(tasks, guid).value;
    var exited := AfterExit(tasks, guid);
    assert exited[i].commandGuid == guid;
    assert forall j :: 0 <= j < i ==> exited[j] == tasks[j];
    FirstIndexAt(exited, guid, i);
    var after := AfterLookup(exited, guid, true);
    assert after == RemoveAt(exited, i);
    forall j | 0 <= j < |after|
      ensures after[j].commandGuid != guid
    {
      if j < i {
        assert after[j] == tasks[j];
      } else {
        assert after[j] == tasks[j + 1];
      }
    }
  }

  /** The registry does not keep GUIDs unique: registering the same GUID twice
    * leaves a second Processing entry that survives the exit hook and the
    * purging lookup of the first. */
  lemma DuplicateGuidSurvivesPurge(guid: string)
    ensures var t := StartedTask(NewTask(guid, "entrypoint.R"), true, false, "", "");
            var tasks := Registered(Registered([], t), t);
            var after := AfterLookup(AfterExit(tasks, guid), guid, true);
            LookupResult(after, guid) == Ok(t)
  {
    var t := StartedTask(NewTask(guid, "entrypoint.R"), true, false, "", "");
    var tasks := Registered(Registered([], t), t);
    assert tasks == [t, t];
    var exited := AfterExit(tasks, guid);
    assert exited == [t.(status := Success), t];
    var after := AfterLookup(exited, guid, true);
    assert after == [t];
  }
}
