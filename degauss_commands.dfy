/** DeGaussCommandService: the status oracle that reads a job's state off
  * its working directory tmp/{guid}, the sync, async and poll façade built
  * on it, and the json address command. */
module DeGaussCommands {
  import opened Wrappers
  import opened Text
  import opened Time
  import opened Commands
  import opened ScriptCommands

  /** A working directory tmp/{guid}: the files the output matcher finds in
    * it, the request log's last write time (None when the log does not
    * exist) and the directory's own last write time. */
  datatype JobDir = JobDir(outputs: seq<string>, log: Option<int>, lastWrite: int)

  /** The working directories under tmp/, by GUID. */
  type FileSystem = map<string, JobDir>

  /** What GetStatus reads from the filesystem. */
  datatype Snapshot = Snapshot(dirExists: bool, matches: seq<string>, logExists: bool, logMtime: int)

  /** The snapshot of tmp/{guid}; File.GetLastWriteTimeUtc of a missing log
    * yields the 1601 sentinel. */
  function SnapshotOf(fs: FileSystem, guid: string): (s: Snapshot)
    ensures s.dirExists <==> guid in fs
    ensures guid in fs ==> s.matches == fs[guid].outputs && s.logExists == fs[guid].log.Some?
    ensures guid !in fs ==> s.matches == [] && !s.logExists
    ensures !s.logExists ==> s.logMtime == MissingFileTime
    ensures s.logExists ==> s.logMtime == fs[guid].log.value
  {
    if guid !in fs then Snapshot(false, [], false, MissingFileTime)
    else
      var d := fs[guid];
      Snapshot(true, d.outputs, d.log.Some?, if d.log.Some? then d.log.value else MissingFileTime)
  }

  /** Start of the freshness window, DateTime.UtcNow.AddMinutes(-grace);
    * AddMinutes throws when the result leaves the DateTime range. */
  function WindowStart(now: int, grace: int): int
  {
    now - grace * TicksPerMinute
  }

  predicate ClockValid(now: int, grace: int)
  {
    InRange(WindowStart(now, grace))
  }

  /** The log was written within the last `grace` minutes. */
  predicate UpdatedRecently(logMtime: int, now: int, grace: int)
  {
    now >= logMtime && logMtime >= WindowStart(now, grace)
  }

  /** GetStatus: the fixed precedence directory, outputs, fresh log, log. */
  function GetStatus(snap: Snapshot, now: int, grace: int): (st: CommandStatus)
    ensures st in {Removed, Success, Processing, Queued, Failure}
    ensures st == Removed <==> !snap.dirExists
    ensures st == Success <==> snap.dirExists && |snap.matches| > 0
  {
    var recent := UpdatedRecently(snap.logMtime, now, grace);
    if !snap.dirExists then Removed
    else if |snap.matches| > 0 then Success
    else if recent then Processing
    else if !snap.logExists then Queued
    else Failure
  }

  /** The precedence, case by case and in both directions. */
  lemma GetStatusCases(snap: Snapshot, now: int, grace: int)
    ensures var st := GetStatus(snap, now, grace);
            var recent := UpdatedRecently(snap.logMtime, now, grace);
            (st == Removed <==> !snap.dirExists)
            && (st == Success <==> snap.dirExists && |snap.matches| > 0)
            && (st == Processing <==> snap.dirExists && |snap.matches| == 0 && recent)
            && (st == Queued <==> snap.dirExists && |snap.matches| == 0 && !recent && !snap.logExists)
            && (st == Failure <==> snap.dirExists && |snap.matches| == 0 && !recent && snap.logExists)
  {
  }

  /** A log that does not exist reads as written in 1601, so it is not
    * fresh once the window starts after that date: the job is Queued. */
  lemma MissingLogIsQueued(fs: FileSystem, guid: string, now: int, grace: int)
    requires guid in fs && fs[guid].outputs == [] && fs[guid].log.None?
    requires WindowStart(now, grace) > MissingFileTime
    ensures GetStatus(SnapshotOf(fs, guid), now, grace) == Queued
  {
  }

  /** Index of the first path of minimal length: OrderBy(p => p.Length) is a
    * stable sort, and First() takes its head. */
  function ShortestIndex(paths: seq<string>): (i: nat)
    requires |paths| > 0
    ensures i < |paths|
    ensures forall j :: 0 <= j < |paths| ==> |paths[i]| <= |paths[j]|
    ensures forall j :: 0 <= j < i ==> |paths[j]| > |paths[i]|
  {
    if |paths| == 1 then 0
    else
      var k := ShortestIndex(paths[1..]);
      assert forall j :: 1 <= j < |paths| ==> paths[j] == paths[1..][j - 1];
      if |paths[0]| <= |paths[k + 1]| then 0 else k + 1
  }

  function ShortestPath(paths: seq<string>): (p: string)
    requires |paths| > 0
    ensures p in paths
  {
    paths[ShortestIndex(paths)]
  }

  function Respond(status: CommandStatus): CommandTaskResponse
  {
    CommandTaskResponse(status, None)
  }

  /** HandleMissingCommandTask: the fallback after an exception. */
  function HandleMissingCommandTask(fs: FileSystem, guid: string, returnFile: bool): (r: CommandTaskResponse)
    ensures var paths := SnapshotOf(fs, guid).matches;
            (paths == [] && guid !in fs ==> r == Respond(Removed))
            && (paths == [] && guid in fs ==> r == Respond(Failure))
            && (paths != [] && returnFile ==> r == CommandTaskResponse(Success, Some(ShortestPath(paths))))
            && (paths != [] && !returnFile ==> r == Respond(Success))
  {
    var paths := SnapshotOf(fs, guid).matches;
    if paths == [] then
      if guid !in fs then Respond(Removed) else Respond(Failure)
    else if returnFile then CommandTaskResponse(Success, Some(ShortestPath(paths)))
    else Respond(Success)
  }

  /** GetServiceStatusAsync. `fault` stands for an I/O exception raised while
    * probing; an AddMinutes overflow is raised the same way. */
  function GetServiceStatusAsync(fs: FileSystem, guid: string, now: int, grace: int, fault: bool)
    : (r: CommandTaskResponse)
    ensures r.stream.None?
    ensures r.status in {Removed, Success, Processing, Queued, Failure}
  {
    if fault || !ClockValid(now, grace) then HandleMissingCommandTask(fs, guid, false)
    else Respond(GetStatus(SnapshotOf(fs, guid), now, grace))
  }

  /** GetServiceResultAsync: the shortest match is returned with Success. */
  function GetServiceResultAsync(fs: FileSystem, guid: string, now: int, grace: int, fault: bool)
    : (r: CommandTaskResponse)
    ensures r.stream.Some? <==> r.status == Success
    ensures r.stream.Some? ==> r.stream.value in SnapshotOf(fs, guid).matches
  {
    if fault || !ClockValid(now, grace) then HandleMissingCommandTask(fs, guid, true)
    else
      var snap := SnapshotOf(fs, guid);
      var status := GetStatus(snap, now, grace);
      if status == Success then CommandTaskResponse(Success, Some(ShortestPath(snap.matches)))
      else Respond(status)
  }

  /** A missing working directory means Removed on every path, and only then. */
  lemma RemovedIffNoDirectory(fs: FileSystem, guid: string, now: int, grace: int, fault: bool)
    ensures GetServiceStatusAsync(fs, guid, now, grace, fault).status == Removed <==> guid !in fs
    ensures GetServiceResultAsync(fs, guid, now, grace, fault).status == Removed <==> guid !in fs
  {
  }

  /** With the directory present, any output means Success on every path,
    * whatever the log says. */
  lemma OutputMeansSuccess(fs: FileSystem, guid: string, now: int, grace: int, fault: bool)
    requires guid in fs && fs[guid].outputs != []
    ensures GetServiceStatusAsync(fs, guid, now, grace, fault) == Respond(Success)
    ensures GetServiceResultAsync(fs, guid, now, grace, fault)
            == CommandTaskResponse(Success, Some(ShortestPath(fs[guid].outputs)))
  {
  }

  /** A result carries a stream exactly when it is Success, and the stream is
    * the first match of minimal length; a poll never carries one. */
  lemma {:induction false} ResultStream(fs: FileSystem, guid: string, now: int, grace: int, fault: bool)
    ensures var r := GetServiceResultAsync(fs, guid, now, grace, fault);
            (r.stream.Some? <==> r.status == Success)
            && (r.stream.Some? ==>
                  guid in fs && var paths := fs[guid].outputs;
                  exists i :: 0 <= i < |paths| && r.stream.value == paths[i]
                              && (forall j :: 0 <= j < |paths| ==> |paths[i]| <= |paths[j]|)
                              && (forall j :: 0 <= j < i ==> |paths[j]| > |paths[i]|))
    ensures GetServiceStatusAsync(fs, guid, now, grace, fault).stream.None?
  {
    var r := GetServiceResultAsync(fs, guid, now, grace, fault);
    var snap := SnapshotOf(fs, guid);
    if r.status == Success {
      GetStatusCases(snap, now, grace);
      assert snap.matches != [];
      var i := ShortestIndex(snap.matches);
      assert r.stream.value == snap.matches[i];
    }
  }

  /** The fallback never reports a job as Processing or Queued. */
  lemma FallbackIsSettled(fs: FileSystem, guid: string, returnFile: bool)
    ensures HandleMissingCommandTask(fs, guid, returnFile).status in {Removed, Failure, Success}
  {
  }

  /** A poll reads nothing but the job's own directory: changing other jobs'
    * directories does not change the answer. */
  lemma PollIsLocal(fs1: FileSystem, fs2: FileSystem, guid: string, now: int, grace: int, fault: bool)
    requires (guid in fs1 <==> guid in fs2) && (guid in fs1 ==> fs1[guid] == fs2[guid])
    ensures GetServiceStatusAsync(fs1, guid, now, grace, fault) == GetServiceStatusAsync(fs2, guid, now, grace, fault)
    ensures GetServiceResultAsync(fs1, guid, now, grace, fault) == GetServiceResultAsync(fs2, guid, now, grace, fault)
  {
    assert SnapshotOf(fs1, guid) == SnapshotOf(fs2, guid);
  }

  // -----------------------------------------------------------------------
  // Starting scripts
  // -----------------------------------------------------------------------

  /** A DeGaussCommandTask as the controllers fill it in. */
  datatype DeGaussTask = DeGaussTask(fileName: string, site: Option<string>, year: Option<int>)

  /** WriteIndexedFileFromInput: tmp/{guid}/{fileName} is created (with its
    * directory), which updates the directory's write time. */
  function WriteInput(fs: FileSystem, guid: string, now: int): (r: FileSystem)
    ensures r.Keys == fs.Keys + {guid}
    ensures r[guid].lastWrite == now
    ensures guid in fs ==> r[guid].outputs == fs[guid].outputs && r[guid].log == fs[guid].log
    ensures guid !in fs ==> r[guid].outputs == [] && r[guid].log.None?
    ensures forall g :: g in fs && g != guid ==> r[g] == fs[g]
  {
    if guid in fs then fs[guid := fs[guid].(lastWrite := now)] else fs[guid := JobDir([], None, now)]
  }

  function InputPath(guid: string, fileName: string): string
  {
    "tmp/" + guid + "/" + fileName
  }

  /** The R command line: `entrypoint.R {path} {site}{year}`, a null site or
    * year printing as nothing. */
  function ScriptCommand(path: string, site: Option<string>, year: Option<int>): string
  {
    "entrypoint.R " + path + " " + site.GetOr("") + (if year.Some? then IntToString(year.value) else "")
  }

  // -----------------------------------------------------------------------
  // The json address command
  // -----------------------------------------------------------------------

  datatype AddressRequest = AddressRequest(id: string, address: string)

  /** The argument of geocode_json.rb: every address as `{Id}|{Address};`. */
  function EncodeAddresses(addresses: seq<AddressRequest>): string
  {
    if addresses == [] then []
    else EncodeAddresses(addresses[..|addresses| - 1])
         + addresses[|addresses| - 1].id + "|" + addresses[|addresses| - 1].address + ";"
  }

  /** Reading the argument back: split on ';', drop the empty field after the
    * last ';', and split each item on '|' into id and address. */
  function DecodeAddresses(s: string): Option<seq<AddressRequest>>
  {
    var items := Split(s, ';');
    if items[|items| - 1] != [] then None else DecodeItems(items[..|items| - 1])
  }

  function DecodeItems(items: seq<string>): Option<seq<AddressRequest>>
  {
    if items == [] then Some([])
    else
      var fields := Split(items[|items| - 1], '|');
      match DecodeItems(items[..|items| - 1])
      case None => None
      case Some(front) =>
        if |fields| == 2 then Some(front + [AddressRequest(fields[0], fields[1])]) else None
  }

  predicate PlainField(s: string)
  {
    ';' !in s && '|' !in s
  }

  /** The items of an encoded list, one per address. */
  function Items(addresses: seq<AddressRequest>): (r: seq<string>)
    ensures |r| == |addresses|
  {
    if addresses == [] then []
    else Items(addresses[..|addresses| - 1])
         + [addresses[|addresses| - 1].id + "|" + addresses[|addresses| - 1].address]
  }

  lemma {:induction false} EncodeIsJoin(addresses: seq<AddressRequest>)
    ensures EncodeAddresses(addresses) == Terminate(Items(addresses))
  {
    if addresses != [] {
      EncodeIsJoin(addresses[..|addresses| - 1]);
      TerminateSnoc(Items(addresses[..|addresses| - 1]),
                    addresses[|addresses| - 1].id + "|" + addresses[|addresses| - 1].address);
    }
  }

  /** Items each followed by ';'. */
  function Terminate(items: seq<string>): string
  {
    if items == [] then [] else Terminate(items[..|items| - 1]) + items[|items| - 1] + ";"
  }

  lemma TerminateSnoc(items: seq<string>, x: string)
    ensures Terminate(items + [x]) == Terminate(items) + x + ";"
  {
    assert (items + [x])[..|items|] == items;
  }

  /** Terminated items are the join of the items plus one empty field. */
  lemma {:induction false} TerminateIsJoin(items: seq<string>)
    ensures Terminate(items) == Join(items + [[]], ';')
  {
    if items != [] {
      var front := items[..|items| - 1];
      var x := items[|items| - 1];
      TerminateIsJoin(front);
      JoinSnoc(front, x);
      assert front + [x] == items;
    }
  }

  lemma {:induction false} JoinSnoc(front: seq<string>, x: string)
    ensures Join(front + [x] + [[]], ';') == Join(front + [[]], ';') + x + ";"
    decreases |front|
  {
    if front == [] {
      assert [x] + [[]] == [x, []];
    } else {
      JoinSnoc(front[1..], x);
      assert front + [x] + [[]] == [front[0]] + (front[1..] + [x] + [[]]);
      assert front + [[]] == [front[0]] + (front[1..] + [[]]);
    }
  }

  lemma {:induction false} DecodeItemsOfItems(addresses: seq<AddressRequest>)
    requires forall i :: 0 <= i < |addresses| ==> PlainField(addresses[i].id) && PlainField(addresses[i].address)
    ensures DecodeItems(Items(addresses)) == Some(addresses)
  {
    if addresses != [] {
      var front := addresses[..|addresses| - 1];
      var a := addresses[|addresses| - 1];
      var items := Items(addresses);
      assert items[..|items| - 1] == Items(front);
      DecodeItemsOfItems(front);
      SplitJoin([a.id, a.address], '|');
      assert Join([a.id, a.address], '|') == a.id + "|" + a.address;
      assert front + [a] == addresses;
    }
  }

  /** The encoding round-trips when no Id or Address contains ';' or '|'. */
  lemma {:induction false} EncodeDecode(addresses: seq<AddressRequest>)
    requires forall i :: 0 <= i < |addresses| ==> PlainField(addresses[i].id) && PlainField(addresses[i].address)
    ensures DecodeAddresses(EncodeAddresses(addresses)) == Some(addresses)
  {
    var items := Items(addresses);
    EncodeIsJoin(addresses);
    TerminateIsJoin(items);
    forall i | 0 <= i < |items + [[]]|
      ensures ';' !in (items + [[]])[i]
    {
      if i < |items| { ItemIsPlain(addresses, i); }
    }
    SplitJoin(items + [[]], ';');
    assert (items + [[]])[..|items|] == items;
    DecodeItemsOfItems(addresses);
  }

  lemma {:induction false} ItemIsPlain(addresses: seq<AddressRequest>, i: nat)
    requires i < |addresses|
    requires forall k :: 0 <= k < |addresses| ==> PlainField(addresses[k].id) && PlainField(addresses[k].address)
    ensures ';' !in Items(addresses)[i]
    decreases |addresses|
  {
    var front := addresses[..|addresses| - 1];
    if i < |addresses| - 1 {
      ItemIsPlain(front, i);
    } else {
      var a := addresses[i];
      assert Items(addresses)[i] == a.id + "|" + a.address;
    }
  }

  /** `Replace("\n", "")`: a text without line feeds comes back whole. */
  function RemoveNewlines(s: string): (r: string)
    ensures '\n' !in r
    ensures |r| <= |s|
    ensures '\n' !in s ==> r == s
  {
    if s == [] then []
    else (if s[0] == '\n' then [] else [s[0]]) + RemoveNewlines(s[1..])
  }

  /** Every character other than a line feed is kept as often as it
    * occurs. */
  lemma {:induction false} RemoveNewlinesKeeps(s: string)
    ensures multiset(RemoveNewlines(s)) == multiset(s)['\n' := 0]
  {
    if s != [] {
      assert s == [s[0]] + s[1..];
      RemoveNewlinesKeeps(s[1..]);
    }
  }

  /** The removal works piece by piece, so the characters keep their
    * order. */
  lemma {:induction false} RemoveNewlinesAppend(a: string, b: string)
    ensures RemoveNewlines(a + b) == RemoveNewlines(a) + RemoveNewlines(b)
  {
    if a == [] {
      assert a + b == b;
    } else {
      var ab := a + b;
      assert ab[0] == a[0];
      assert ab[1..] == a[1..] + b;
      RemoveNewlinesAppend(a[1..], b);
    }
  }


  datatype JsonAddressResponse = JsonAddressResponse(status: CommandStatus, geocodedAddress: string)

  /** What GetService makes of the task the purging lookup returned: an
    * exception for a missing task or a status other than Success and
    * Failure, otherwise the first output file with Success, or Failure when
    * the script left no output. */
  function SyncResult(finished: Result<CommandTask, CommandError>, produced: seq<string>)
    : (r: Result<CommandTaskResponse, CommandError>)
    ensures r.Err? <==> finished.Err? || (finished.value.status != Success && finished.value.status != Failure)
    ensures r.Ok? && r.value.status == Success ==> produced != [] && r.value.stream == Some(produced[0])
  {
    if finished.Err? then Err(finished.error)
    else if finished.value.status == Success then
      if produced == [] then Ok(Respond(Failure)) else Ok(CommandTaskResponse(Success, Some(produced[0])))
    else if finished.value.status == Failure then Ok(Respond(Failure))
    else Err(CommandRejected)
  }

  /** A synchronous result is Success with the first output, or Failure
    * without a stream. */
  lemma SyncResultShape(finished: Result<CommandTask, CommandError>, produced: seq<string>)
    ensures var r := SyncResult(finished, produced);
            (r.Ok? ==> r.value.status == Success || r.value.status == Failure)
            && (r.Ok? && r.value.status == Success ==> produced != [] && r.value.stream == Some(produced[0]))
            && (r.Ok? && r.value.status == Failure ==> r.value.stream.None?)
  {
  }

  /** The job directory once the script ran: it holds the output files,
    * and a successful run deletes it. */
  function Collected(fs: FileSystem, guid: string, produced: seq<string>, succeeded: bool): FileSystem
    requires guid in fs
  {
    if succeeded then map g | g in fs && g != guid :: fs[g]
    else fs[guid := fs[guid].(outputs := produced)]
  }

  /** After a success no trace of the job is left and every other directory
    * is as it was; otherwise the job directory stays. */
  lemma CollectedShape(fs: FileSystem, guid: string, now: int, produced: seq<string>, succeeded: bool)
    ensures var c := Collected(WriteInput(fs, guid, now), guid, produced, succeeded);
            (succeeded ==> c == map g | g in fs && g != guid :: fs[g])
            && (!succeeded ==> guid in c && c[guid].outputs == produced)
  {
    var w := WriteInput(fs, guid, now);
    if succeeded {
      var c := Collected(w, guid, produced, succeeded);
      var m := map g | g in fs && g != guid :: fs[g];
      assert c.Keys == m.Keys;
      forall g | g in c ensures c[g] == m[g] { }
    }
  }

  /** DeGaussCommandService, built on its own task registry. */
  class DeGaussCommandService {
    const registry: ScriptCommandService
    const gracePeriod: int

    constructor(grace: int)
      ensures gracePeriod == grace && fresh(registry) && registry.tasks == []
    {
      gracePeriod := grace;
      registry := new ScriptCommandService();
    }

    /** GetService, the synchronous path. `started` is what proc.Start()
      * returned, `exitHandled` whether the Exited hook ran before the lookup
      * and `produced` the output files the R script left in tmp/{guid}. */
    method GetService(task: DeGaussTask, guid: string, fs: FileSystem, now: int,
                      started: bool, exitHandled: bool, produced: seq<string>)
      returns (r: Result<CommandTaskResponse, CommandError>, fs': FileSystem)
      modifies registry
      ensures var written := WriteInput(fs, guid, now);
              (!started ==> r == Err(CommandRejected) && fs' == written
                            && registry.tasks == old(registry.tasks))
      ensures r.Ok? ==> r.value.status == Success || r.value.status == Failure
      ensures r.Ok? && r.value.status == Success ==>
                produced != [] && r.value.stream == Some(produced[0])
                && fs' == map g | g in fs && g != guid :: fs[g]
      ensures r.Ok? && r.value.status == Failure ==> r.value.stream.None? && guid in fs'
      ensures started && !HasGuid(old(registry.tasks), guid) ==>
                (exitHandled ==> registry.tasks == old(registry.tasks)
                                 && r == Ok(if produced == [] then Respond(Failure)
                                            else CommandTaskResponse(Success, Some(produced[0]))))
                && (!exitHandled ==> r == Err(CommandRejected)
                                     && registry.tasks == old(registry.tasks)
                                        + [CommandTask(guid, ScriptCommand(InputPath(guid, task.fileName), task.site, task.year),
                                                       true, Processing, "", "")])
    {
      var path := InputPath(guid, task.fileName);
      var written := WriteInput(fs, guid, now);
      fs' := written;
      var command := ScriptCommand(path, task.site, task.year);
      var result := registry.ExecuteCommand(NewTask(guid, command), false, started, "", "");
      if !result.hasProcess {
        return Err(CommandRejected), fs';
      }
      if exitHandled {
        registry.HandleExited(guid);
      }
      var finished := registry.GetCommandTask(result.commandGuid, true);
      if !HasGuid(old(registry.tasks), guid) {
        FreshRun(old(registry.tasks), result, exitHandled);
      }
      r := SyncResult(finished, produced);
      SyncResultShape(finished, produced);
      fs' := Collected(written, guid, produced, r.Ok? && r.value.status == Success);
      CollectedShape(fs, guid, now, produced, r.Ok? && r.value.status == Success);
    }

    /** StartGetServiceAsync: the caller's GUID when the script started. */
    method StartGetServiceAsync(task: DeGaussTask, guid: string, fs: FileSystem, now: int, started: bool)
      returns (r: Result<string, CommandError>, fs': FileSystem)
      modifies registry
      ensures r == (if started then Ok(guid) else Err(CommandRejected))
      ensures fs' == WriteInput(fs, guid, now)
      ensures registry.tasks
              == Registered(old(registry.tasks),
                            StartedTask(NewTask(guid, ScriptCommand(InputPath(guid, task.fileName), task.site, task.year)),
                                        started, false, "", ""))
    {
      var path := InputPath(guid, task.fileName);
      fs' := WriteInput(fs, guid, now);
      var command := ScriptCommand(path, task.site, task.year);
      var result := registry.ExecuteCommand(NewTask(guid, command), false, started, "", "");
      if result.hasProcess {
        return Ok(guid), fs';
      }
      return Err(CommandRejected), fs';
    }

    /** GetJsonAddressService with `guid` the fresh command GUID and stdout
      * what the Ruby geocoder printed. */
    method GetJsonAddressService(addresses: seq<AddressRequest>, guid: string, started: bool,
                                 exitHandled: bool, stdout: string, stderr: string)
      returns (r: Result<JsonAddressResponse, CommandError>)
      modifies registry
      ensures !started ==> r == Ok(JsonAddressResponse(Rejected, "")) && registry.tasks == old(registry.tasks)
      ensures started && !HasGuid(old(registry.tasks), guid) ==>
                (exitHandled ==> r == Ok(JsonAddressResponse(Success, RemoveNewlines(stdout)))
                                 && registry.tasks == old(registry.tasks))
                && (!exitHandled ==> r == Ok(JsonAddressResponse(Rejected, ""))
                                     && registry.tasks == old(registry.tasks)
                                        + [CommandTask(guid, "geocode_json.rb \"" + EncodeAddresses(addresses) + "\"",
                                                       true, Processing, stdout, stderr)])
      ensures r.Ok? ==> r.value.status in {Success, Failure, Rejected}
    {
      var command := "geocode_json.rb \"" + EncodeAddresses(addresses) + "\"";
      var result := registry.ExecuteCommand(NewTask(guid, command), true, started, stdout, stderr);
      if result.hasProcess {
        if exitHandled {
          registry.HandleExited(guid);
        }
        var finished := registry.GetCommandTask(result.commandGuid, true);
        if !HasGuid(old(registry.tasks), guid) {
          FreshRun(old(registry.tasks), result, exitHandled);
        }
        if finished.Err? {
          return Err(finished.error);
        }
        if finished.value.status == Success {
          return Ok(JsonAddressResponse(Success, RemoveNewlines(finished.value.standardOut)));
        } else if finished.value.status == Failure {
          return Ok(JsonAddressResponse(Failure, ""));
        }
      }
      return Ok(JsonAddressResponse(Rejected, ""));
    }
  }

  /** A script started under a GUID new to the registry is found by the
    * lookup after it; once the exit hook has run, the purging lookup removes
    * it again, and otherwise it stays Processing. */
  lemma FreshRun(tasks: seq<CommandTask>, t: CommandTask, exitHandled: bool)
    requires t.hasProcess && t.status == Processing && !HasGuid(tasks, t.commandGuid)
    ensures var reg := Registered(tasks, t);
            var ex := if exitHandled then AfterExit(reg, t.commandGuid) else reg;
            LookupResult(ex, t.commandGuid) == Ok(if exitHandled then t.(status := Success) else t)
            && AfterLookup(ex, t.commandGuid, true) == (if exitHandled then tasks else reg)
  {
    var reg := Registered(tasks, t);
    assert reg == tasks + [t];
    FirstIndexAt(reg, t.commandGuid, |tasks|);
    if exitHandled {
      var ex := AfterExit(reg, t.commandGuid);
      assert ex == tasks + [t.(status := Success)];
      FirstIndexAt(ex, t.commandGuid, |tasks|);
      assert RemoveAt(ex, |tasks|) == tasks;
    }
  }
}
