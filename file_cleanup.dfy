/** FileCleanupJob: after the KeepAliveDays guards, every top-level
  * directory under tmp/ whose last write is at least KeepAliveDays old is
  * deleted. */
module FileCleanup {
  import opened Wrappers
  import opened Time
  import opened JobConfig
  import opened Commands
  import opened DeGaussCommands

  /** writeTime.AddDays(days) throws past DateTime.MaxValue. */
  predicate CutoffOverflows(lastWrite: int, days: nat)
  {
    lastWrite + days * TicksPerDay > MaxValue
  }

  /** The directory is over the cutoff: not `writeTime.AddDays(days) > now`. */
  predicate Expired(lastWrite: int, days: nat, now: int)
  {
    lastWrite + days * TicksPerDay <= now
  }

  datatype CleanupOutcome =
    | ConfigurationError
    | NoWorkingDirectory
    | Completed
    | CutoffOverflow(at: nat)

  /** The directories that survive a sweep of listing[..k]. */
  function Kept(fs: FileSystem, listing: seq<string>, k: nat, days: nat, now: int): FileSystem
    requires k <= |listing|
  {
    map g | g in fs && !(g in listing[..k] && Expired(fs[g].lastWrite, days, now)) :: fs[g]
  }

  lemma KeptStep(fs: FileSystem, listing: seq<string>, k: nat, days: nat, now: int)
    requires k < |listing| && listing[k] in fs
    requires forall i, j :: 0 <= i < j < |listing| ==> listing[i] != listing[j]
    ensures Kept(fs, listing, k + 1, days, now)
            == if Expired(fs[listing[k]].lastWrite, days, now) then Kept(fs, listing, k, days, now) - {listing[k]}
               else Kept(fs, listing, k, days, now)
  {
    assert listing[..k + 1] == listing[..k] + [listing[k]];
    assert listing[k] !in listing[..k];
  }

  lemma KeptAll(fs: FileSystem, listing: seq<string>, days: nat, now: int)
    requires forall g :: g in fs <==> g in listing
    ensures Kept(fs, listing, |listing|, days, now)
            == map g | g in fs && !Expired(fs[g].lastWrite, days, now) :: fs[g]
  {
    assert listing[..|listing|] == listing;
  }

  /** Execute. `rootExists` is whether tmp/ exists and `listing` the
    * directories Directory.GetDirectories returns, each once. */
  method Execute(data: JobDataMap, rootExists: bool, listing: seq<string>, fs: FileSystem, now: int)
    returns (fs': FileSystem, outcome: CleanupOutcome)
    requires forall i, j :: 0 <= i < j < |listing| ==> listing[i] != listing[j]
    requires forall g :: g in fs <==> g in listing
    ensures KeepAliveDays(data).None? ==> outcome == ConfigurationError && fs' == fs
    ensures KeepAliveDays(data).Some? && !rootExists ==> outcome == NoWorkingDirectory && fs' == fs
    ensures outcome == ConfigurationError <==> KeepAliveDays(data).None?
    ensures outcome == NoWorkingDirectory <==> KeepAliveDays(data).Some? && !rootExists
    ensures KeepAliveDays(data).Some? && rootExists ==> outcome.Completed? || outcome.CutoffOverflow?
    ensures outcome == Completed ==>
              KeepAliveDays(data).Some? && rootExists
              && fs' == map g | g in fs && !Expired(fs[g].lastWrite, KeepAliveDays(data).value, now) :: fs[g]
    ensures outcome == Completed ==>
              forall k :: 0 <= k < |listing| ==> !CutoffOverflows(fs[listing[k]].lastWrite, KeepAliveDays(data).value)
    ensures outcome.CutoffOverflow? ==>
              KeepAliveDays(data).Some? && rootExists && outcome.at < |listing|
              && CutoffOverflows(fs[listing[outcome.at]].lastWrite, KeepAliveDays(data).value)
              && fs' == Kept(fs, listing, outcome.at, KeepAliveDays(data).value, now)
    ensures outcome.CutoffOverflow? ==>
              forall k :: 0 <= k < outcome.at ==> !CutoffOverflows(fs[listing[k]].lastWrite, KeepAliveDays(data).value)
    ensures KeepAliveDays(data).Some? && rootExists
            && (forall g :: g in fs ==> !CutoffOverflows(fs[g].lastWrite, KeepAliveDays(data).value))
            ==> outcome == Completed
  {
    var config := KeepAliveDays(data);
    if config.None? {
      return fs, ConfigurationError;
    }
    var days := config.value;
    if !rootExists {
      return fs, NoWorkingDirectory;
    }
    fs' := fs;
    var i := 0;
    while i < |listing|
      invariant 0 <= i <= |listing|
      invariant fs' == Kept(fs, listing, i, days, now)
      invariant forall k :: 0 <= k < i ==> !CutoffOverflows(fs[listing[k]].lastWrite, days)
    {
      var directory := listing[i];
      var writeTime := fs[directory].lastWrite;
      if CutoffOverflows(writeTime, days) {
        return fs', CutoffOverflow(i);
      }
      KeptStep(fs, listing, i, days, now);
      if !(writeTime + days * TicksPerDay > now) {
        fs' := fs' - {directory};
      }
      i := i + 1;
    }
    KeptAll(fs, listing, days, now);
    outcome := Completed;
  }

  /** The job's test: with 30 days kept, a directory written 31 days ago is
    * deleted and one written 29 days ago is kept. */
  lemma ThirtyDayCutoff(now: int)
    ensures Expired(now - 31 * TicksPerDay, 30, now)
    ensures !Expired(now - 29 * TicksPerDay, 30, now)
  {
  }

  /** Once the sweep has deleted a job's directory, polling that job says
    * Removed, on the status path and the result path alike. */
  lemma {:induction false} SweptJobReadsRemoved(fs: FileSystem, days: nat, clock: int,
                                                guid: string, now: int, grace: int, fault: bool)
    requires guid in fs && Expired(fs[guid].lastWrite, days, clock)
    ensures var swept := map g | g in fs && !Expired(fs[g].lastWrite, days, clock) :: fs[g];
            GetServiceStatusAsync(swept, guid, now, grace, fault).status == Removed
            && GetServiceResultAsync(swept, guid, now, grace, fault) == CommandTaskResponse(Removed, None)
  {
    var swept := map g | g in fs && !Expired(fs[g].lastWrite, days, clock) :: fs[g];
    assert guid !in swept;
    RemovedIffNoDirectory(swept, guid, now, grace, fault);
  }
}
