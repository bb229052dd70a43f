/** DeleteStaleRequestsJob: after the KeepAliveDays guards, every
  * SingleAddress request uploaded more than KeepAliveDays ago is deleted;
  * requests of every other type stay whatever their age. */
module StaleRequests {
  import opened Wrappers
  import opened Time
  import opened WebModels
  import opened JobConfig
  import opened Repository

  /** The filter of the job's query: a SingleAddress request whose upload
    * time plus the kept days lies strictly before now. */
  predicate Stale(r: UserRequest, days: nat, now: int)
  {
    r.requestType == SingleAddress && r.uploadTime + days * TicksPerDay < now
  }

  /** The GUIDs the query returns. */
  function StaleGuids(s: Requests, days: nat, now: int): set<string>
  {
    set g | g in s && Stale(s[g], days, now)
  }

  /** The requests a sweep leaves. */
  function Swept(s: Requests, days: nat, now: int): (r: Requests)
    ensures forall g :: g in r <==> g in s && !Stale(s[g], days, now)
    ensures forall g :: g in r ==> r[g] == s[g]
  {
    map g | g in s && !Stale(s[g], days, now) :: s[g]
  }

  datatype StaleOutcome = ConfigurationError | Deleted(count: nat)

  class DeleteStaleRequestsJob {
    const db: UserRequestsDbContext

    constructor(db: UserRequestsDbContext)
      ensures this.db == db
    {
      this.db := db;
    }

    /** Execute: the guards return before reading the store; otherwise the
      * stale rows are removed one at a time, each with its own save. */
    method Execute(data: JobDataMap, now: int) returns (outcome: StaleOutcome)
      modifies db
      ensures KeepAliveDays(data).None? ==> outcome == ConfigurationError && db.requests == old(db.requests)
      ensures KeepAliveDays(data).Some? ==>
                db.requests == Swept(old(db.requests), KeepAliveDays(data).value, now)
                && outcome == Deleted(|StaleGuids(old(db.requests), KeepAliveDays(data).value, now)|)
      ensures db.records == old(db.records)
    {
      var config := KeepAliveDays(data);
      if config.None? {
        return ConfigurationError;
      }
      var days := config.value;
      var stale := StaleGuids(db.requests, days, now);
      SweptIsRemoval(db.requests, days, now);
      RemoveEach(stale);
      outcome := Deleted(|stale|);
    }

    /** The loop of Execute: Remove and SaveChanges for each row of the
      * query. */
    method RemoveEach(stale: set<string>)
      modifies db
      ensures db.requests == old(db.requests) - stale
      ensures db.records == old(db.records)
    {
      var left := stale;
      while left != {}
        invariant left <= stale
        invariant db.requests == old(db.requests) - (stale - left)
        invariant db.records == old(db.records)
        decreases |left|
      {
        var g :| g in left;
        db.requests := db.requests - {g};
        left := left - {g};
      }
    }
  }

  /** A request of any other type is never deleted, however old. */
  lemma OtherTypesKept(s: Requests, days: nat, now: int, g: string)
    requires g in s && s[g].requestType != SingleAddress
    ensures g in Swept(s, days, now) && Swept(s, days, now)[g] == s[g]
  {
  }

  /** The rows deleted are exactly the rows of the query. */
  lemma DeletedAreStale(s: Requests, days: nat, now: int)
    ensures s.Keys - Swept(s, days, now).Keys == StaleGuids(s, days, now)
  {
  }

  /** A second sweep at the same time deletes nothing more. */
  lemma SweepIdempotent(s: Requests, days: nat, now: int)
    ensures Swept(Swept(s, days, now), days, now) == Swept(s, days, now)
    ensures StaleGuids(Swept(s, days, now), days, now) == {}
  {
  }

  /** Keeping requests longer deletes no more of them. */
  lemma LongerKeepsMore(s: Requests, shorter: nat, longer: nat, now: int)
    requires shorter <= longer
    ensures Swept(s, shorter, now).Keys <= Swept(s, longer, now).Keys
  {
    forall g | g in Swept(s, shorter, now)
      ensures g in Swept(s, longer, now)
    {
      assert shorter * TicksPerDay <= longer * TicksPerDay;
    }
  }

  /** The cutoff is strict: a request exactly the kept days old stays, one a
    * tick older goes. */
  lemma StrictCutoff(r: UserRequest, days: nat, now: int)
    requires r.requestType == SingleAddress
    ensures !Stale(r.(uploadTime := now - days * TicksPerDay), days, now)
    ensures Stale(r.(uploadTime := now - days * TicksPerDay - 1), days, now)
  {
  }

  /** Deleting rows never opens a loop in the chains that stay. */
  lemma SweepKeepsClosed(s: Requests, days: nat, now: int)
    requires AllClosed(s)
    ensures AllClosed(Swept(s, days, now))
  {
    RemovalKeepsClosed(s, StaleGuids(s, days, now));
    SweptIsRemoval(s, days, now);
  }

  /** The sweep leaves the store less the stale GUIDs. */
  lemma SweptIsRemoval(s: Requests, days: nat, now: int)
    ensures Swept(s, days, now) == s - StaleGuids(s, days, now)
  {
    var a := Swept(s, days, now);
    var b := s - StaleGuids(s, days, now);
    assert a.Keys == b.Keys;
    forall g | g in a ensures a[g] == b[g] { }
  }
}
