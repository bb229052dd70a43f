/** UserRequestRepository: the request table seen as a store of chain nodes.
  * A composite job is a singly linked list of requests through
  * NextRequest; deleting a chain and stamping a status on it both walk that
  * list from a given GUID until the link is empty or names no row. */
module Repository {
  import opened Wrappers
  import opened Commands
  import opened WebModels

  // -----------------------------------------------------------------------
  // The walk along NextRequest
  // -----------------------------------------------------------------------

  lemma RemoveOneKey(s: Requests, g: string)
    requires g in s
    ensures |s - {g}| == |s| - 1
  {
    assert s.Keys == (s - {g}).Keys + {g};
  }

  /** The GUIDs DeleteRequestChain removes, in the order it removes them.
    * Each visited node is removed before its link is followed, so the walk
    * stops at an empty link, a missing node, or a node it already removed. */
  function Chain(s: Requests, g: string): (c: seq<string>)
    ensures (g == "" || g !in s) <==> c == []
    ensures c != [] ==> c[0] == g
    ensures forall i :: 0 <= i < |c| ==> c[i] in s && c[i] != ""
    ensures forall i, j :: 0 <= i < j < |c| ==> c[i] != c[j]
    ensures forall i :: 0 <= i < |c| - 1 ==> s[c[i]].nextRequest == c[i + 1]
    decreases |s|
  {
    if g == "" || g !in s then []
    else
      RemoveOneKey(s, g);
      [g] + Chain(s - {g}, s[g].nextRequest)
  }

  /** The GUID at which that walk stops: an empty link, a missing node, or
    * one the walk already removed. */
  function Tail(s: Requests, g: string): (t: string)
    ensures t == "" || t !in s || t in Chain(s, g)
    ensures Chain(s, g) != [] ==> s[Chain(s, g)[|Chain(s, g)| - 1]].nextRequest == t
    decreases |s|
  {
    if g == "" || g !in s then g
    else
      RemoveOneKey(s, g);
      ChainUnfold(s, g);
      Tail(s - {g}, s[g].nextRequest)
  }

  lemma ChainUnfold(s: Requests, g: string)
    requires g != "" && g in s
    ensures Chain(s, g) == [g] + Chain(s - {g}, s[g].nextRequest)
  {
  }

  /** The chain from `g` ends at an empty link or a missing node; were it to
    * come back to one of its own nodes, ApplyStatusToRequestChain, which
    * does not remove what it visits, would go round forever. */
  predicate Closed(s: Requests, g: string)
  {
    Tail(s, g) == "" || Tail(s, g) !in s
  }

  /** Every chain in the store is closed. */
  predicate AllClosed(s: Requests)
  {
    forall g {:trigger Closed(s, g)} :: g in s ==> Closed(s, g)
  }

  /** Two stores with the same keys, and under each key a row with the same
    * GUID and the same link: they differ at most in fields the walks do
    * not read. */
  predicate SameLinks(a: Requests, b: Requests)
  {
    a.Keys == b.Keys && forall g :: g in a ==> a[g].nextRequest == b[g].nextRequest && a[g].guid == b[g].guid
  }

  /** A closed chain does not link a node to itself. */
  lemma ClosedNoSelfLoop(s: Requests, g: string)
    requires g != "" && g in s && Closed(s, g)
    ensures s[g].nextRequest != g
  {
  }

  /** Taking out a node the chain from `h` reaches cuts the chain just
    * before it, and the walk then stops at that node. */
  lemma {:induction false} RemovalCutsChain(s: Requests, x: string, h: string, k: nat)
    requires k < |Chain(s, h)| && Chain(s, h)[k] == x
    ensures Chain(s - {x}, h) == Chain(s, h)[..k] && Tail(s - {x}, h) == x
    decreases |s|
  {
    if h != x {
      var next := s[h].nextRequest;
      RemoveOneKey(s, h);
      ChainUnfold(s, h);
      assert Chain(s - {h}, next)[k - 1] == x;
      RemovalCutsChain(s - {h}, x, next, k - 1);
      assert s - {x} - {h} == s - {h} - {x};
      ChainUnfold(s - {x}, h);
    }
  }

  /** In a closed chain no node is reached again from its successor. */
  lemma ClosedNotOnOwnTail(s: Requests, g: string)
    requires g != "" && g in s && Closed(s, g)
    ensures g !in Chain(s, s[g].nextRequest)
  {
    var c := Chain(s, s[g].nextRequest);
    if g in c {
      var k :| 0 <= k < |c| && c[k] == g;
      RemovalCutsChain(s, g, s[g].nextRequest, k);
    }
  }

  /** Every row is stored under its own GUID, as the primary key makes it. */
  predicate KeysMatch(s: Requests)
  {
    forall g :: g in s ==> s[g].guid == g
  }

  /** The walk reads only the links, so stores with the same links have the
    * same chains and the same ends. */
  lemma {:induction false} LinksDecideChains(a: Requests, b: Requests, g: string)
    requires SameLinks(a, b)
    ensures Chain(a, g) == Chain(b, g) && Tail(a, g) == Tail(b, g)
    decreases |a|
  {
    if g != "" && g in a {
      RemoveOneKey(a, g);
      assert SameLinks(a - {g}, b - {g});
      LinksDecideChains(a - {g}, b - {g}, a[g].nextRequest);
    }
  }

  lemma SameLinksKeepClosed(a: Requests, b: Requests)
    requires SameLinks(a, b) && AllClosed(a)
    ensures AllClosed(b)
  {
    forall g | g in b
      ensures Closed(b, g)
    {
      LinksDecideChains(a, b, g);
      assert Closed(a, g);
    }
  }

  /** Removing rows never closes a loop: walking the smaller store stops at
    * the same end, or earlier, at a row that was removed. Stated against a
    * universe `u` of GUIDs the end must lie outside. */
  lemma {:induction false} RemovalKeepsEnd(s: Requests, u: set<string>, d: set<string>, g: string)
    requires s.Keys <= u
    requires Tail(s, g) == "" || Tail(s, g) !in u
    ensures Tail(s - d, g) == "" || Tail(s - d, g) !in u - d
    decreases |s|
  {
    if g != "" && g in s && g !in d {
      RemoveOneKey(s, g);
      assert s - d - {g} == s - {g} - d;
      RemovalKeepsEnd(s - {g}, u, d, s[g].nextRequest);
    }
  }

  lemma RemovalKeepsClosed(s: Requests, d: set<string>)
    requires AllClosed(s)
    ensures AllClosed(s - d)
  {
    forall g | g in s - d
      ensures Closed(s - d, g)
    {
      assert Closed(s, g);
      RemovalKeepsEnd(s, s.Keys, d, g);
      assert (s - d).Keys == s.Keys - d;
    }
  }

  /** A GUID no row links to. */
  predicate Unreferenced(s: Requests, g: string)
  {
    forall x :: x in s ==> s[x].nextRequest != g
  }

  /** Adding a row under a GUID nobody links to leaves every other walk as
    * it was. */
  lemma {:induction false} AddingUnreferenced(s: Requests, g: string, r: UserRequest, h: string)
    requires g !in s && Unreferenced(s, g) && h != g
    ensures Chain(s[g := r], h) == Chain(s, h) && Tail(s[g := r], h) == Tail(s, h)
    decreases |s|
  {
    if h != "" && h in s {
      RemoveOneKey(s, h);
      assert s[g := r] - {h} == (s - {h})[g := r];
      assert Unreferenced(s - {h}, g);
      AddingUnreferenced(s - {h}, g, r, s[h].nextRequest);
    }
  }

  /** Hence adding such a row whose own link starts a closed chain, and is
    * not itself, keeps every chain closed: the construction of a composite
    * job never builds a loop. */
  lemma AddingKeepsClosed(s: Requests, g: string, r: UserRequest)
    requires AllClosed(s) && g !in s && Unreferenced(s, g)
    requires r.nextRequest != g && Closed(s, r.nextRequest)
    ensures AllClosed(s[g := r])
  {
    var s' := s[g := r];
    forall h | h in s'
      ensures Closed(s', h)
    {
      if h != g {
        OldNodeClosed(s, g, r, h);
      } else if g != "" {
        NewNodeClosed(s, g, r);
      }
    }
  }

  /** A row under the empty GUID is never visited: every walk stops at an
    * empty link. */
  lemma {:induction false} AddingEmptyKey(s: Requests, r: UserRequest, h: string)
    ensures Chain(s["" := r], h) == Chain(s, h) && Tail(s["" := r], h) == Tail(s, h)
    decreases |s|
  {
    if h != "" && h in s {
      RemoveOneKey(s, h);
      assert s["" := r] - {h} == (s - {h})["" := r];
      AddingEmptyKey(s - {h}, r, s[h].nextRequest);
    }
  }

  /** Hence such a row keeps every chain closed, whatever it links to. */
  lemma EmptyKeyKeepsClosed(s: Requests, r: UserRequest)
    requires AllClosed(s)
    ensures AllClosed(s["" := r])
  {
    forall h | h == "" || h in s
      ensures Closed(s["" := r], h)
    {
      AddingEmptyKey(s, r, h);
      if h != "" {
        assert Closed(s, h);
      }
    }
  }

  /** A row put in front of the store: its chain is itself followed by the
    * chain its link starts. */
  lemma ChainPrepend(s: Requests, g: string, r: UserRequest)
    requires g != "" && g !in s
    ensures Chain(s[g := r], g) == [g] + Chain(s, r.nextRequest)
  {
    ChainUnfold(s[g := r], g);
    assert s[g := r] - {g} == s;
  }

  lemma NewNodeClosed(s: Requests, g: string, r: UserRequest)
    requires g !in s && g != "" && Unreferenced(s, g)
    requires r.nextRequest != g && Closed(s, r.nextRequest)
    ensures Closed(s[g := r], g)
  {
    var s' := s[g := r];
    assert s' - {g} == s;
    RemoveOneKey(s', g);
    assert Tail(s', g) == Tail(s, r.nextRequest);
    if r.nextRequest != "" && r.nextRequest in s {
      TailIsReached(s, r.nextRequest);
    }
  }

  lemma OldNodeClosed(s: Requests, g: string, r: UserRequest, h: string)
    requires g !in s && Unreferenced(s, g) && h in s && h != g && Closed(s, h)
    ensures Closed(s[g := r], h)
  {
    AddingUnreferenced(s, g, r, h);
    if h != "" {
      TailIsReached(s, h);
    }
  }

  /** A walk that moves at all stops at a GUID some row links to. */
  lemma TailIsReached(s: Requests, h: string)
    requires h in s && h != ""
    ensures exists x :: x in s && s[x].nextRequest == Tail(s, h)
  {
    var c := Chain(s, h);
    assert s[c[|c| - 1]].nextRequest == Tail(s, h);
  }

  // -----------------------------------------------------------------------
  // Stamping a status along a chain
  // -----------------------------------------------------------------------

  /** The store after the nodes in `nodes` got status `st`. */
  function Stamped(s: Requests, nodes: seq<string>, st: CommandStatus): (r: Requests)
    ensures r.Keys == s.Keys
  {
    map g | g in s :: if g in nodes then s[g].(status := st) else s[g]
  }

  /** What stamping does: each listed row gets the status, every other row
    * keeps its value. */
  lemma StampedRows(s: Requests, nodes: seq<string>, st: CommandStatus)
    ensures forall g :: g in s && g in nodes ==> Stamped(s, nodes, st)[g] == s[g].(status := st)
    ensures forall g :: g in s && g !in nodes ==> Stamped(s, nodes, st)[g] == s[g]
  {
  }

  /** Stamping changes a status, never a link. */
  lemma StampedKeepsLinks(s: Requests, nodes: seq<string>, st: CommandStatus)
    ensures SameLinks(s, Stamped(s, nodes, st))
  {
  }

  lemma StampedNothing(s: Requests, nodes: seq<string>, st: CommandStatus)
    ensures Stamped(s, nodes[..0], st) == s
  {
    assert nodes[..0] == [];
  }

  lemma StampStep(s: Requests, nodes: seq<string>, i: nat, st: CommandStatus)
    requires i < |nodes| && nodes[i] in s
    ensures Stamped(s, nodes[..i + 1], st)
            == Stamped(s, nodes[..i], st)[nodes[i] := s[nodes[i]].(status := st)]
  {
    assert nodes[..i + 1] == nodes[..i] + [nodes[i]];
  }

  /** Where a walk of the chain from `guid` stands after `i` steps: the
    * i-th node, or once past the last node its link. */
  function WalkAt(s: Requests, guid: string, i: nat): (g: string)
    requires i <= |Chain(s, guid)|
    ensures i < |Chain(s, guid)| ==> g == Chain(s, guid)[i] && g in s
    ensures i == |Chain(s, guid)| ==> g == Tail(s, guid)
  {
    if i < |Chain(s, guid)| then Chain(s, guid)[i] else Tail(s, guid)
  }

  /** Following a link moves the walk one step on. */
  lemma WalkNext(s: Requests, guid: string, i: nat)
    requires i < |Chain(s, guid)|
    ensures s[WalkAt(s, guid, i)].nextRequest == WalkAt(s, guid, i + 1)
  {
  }

  /** One step of the stamping walk: the node it visits is the next chain
    * node and that node's link is the one after it. */
  lemma StampWalkStep(s: Requests, guid: string, i: nat, st: CommandStatus, cur: Requests, g: string)
    requires i < |Chain(s, guid)| && g == WalkAt(s, guid, i)
    requires cur == Stamped(s, Chain(s, guid)[..i], st)
    ensures g in cur && cur[g].nextRequest == WalkAt(s, guid, i + 1)
    ensures cur[g := cur[g].(status := st)] == Stamped(s, Chain(s, guid)[..i + 1], st)
  {
    var c := Chain(s, guid);
    StampStep(s, c, i, st);
    WalkNext(s, guid, i);
    assert cur[g] == s[g].(status := cur[g].status) by {
      StampedRows(s, c[..i], st);
    }
  }

  /** A walk that stops at an empty link or a missing node of a store with
    * the chain's keys has gone through the whole chain. */
  lemma WalkDone(s: Requests, guid: string, i: nat, cur: Requests, g: string)
    requires cur.Keys == s.Keys && i <= |Chain(s, guid)| && g == WalkAt(s, guid, i)
    requires g == "" || g !in cur
    ensures i == |Chain(s, guid)|
  {
  }

  /** A walk of a closed chain that has not reached an empty link or a
    * missing node is still on the chain. */
  lemma StillOnChain(s: Requests, guid: string, i: nat, cur: Requests, g: string)
    requires Closed(s, guid) && cur.Keys == s.Keys && i <= |Chain(s, guid)| && g == WalkAt(s, guid, i)
    requires g != "" && g in cur
    ensures i < |Chain(s, guid)|
  {
  }

  /** The walk of DeleteRequestChain stops at the end of the chain: the
    * chain's tail is empty, missing or one of the nodes already removed. */
  lemma DeleteStillOnChain(s: Requests, guid: string, i: nat, cur: Requests, g: string)
    requires i <= |Chain(s, guid)| && cur == Without(s, Chain(s, guid)[..i]) && g == WalkAt(s, guid, i)
    requires g != "" && g in cur
    ensures i < |Chain(s, guid)|
  {
  }

  /** The walk of DeleteRequestChain stops only past the last node: a node
    * of the chain not yet visited is still in the store. */
  lemma DeleteWalkDone(s: Requests, guid: string, i: nat, cur: Requests, g: string)
    requires i <= |Chain(s, guid)| && cur == Without(s, Chain(s, guid)[..i]) && g == WalkAt(s, guid, i)
    requires g == "" || g !in cur
    ensures i == |Chain(s, guid)|
  {
    ChainNodeLeft(s, guid, i);
  }

  /** A chain node not yet visited is not among the removed ones. */
  lemma ChainNodeLeft(s: Requests, guid: string, i: nat)
    requires i <= |Chain(s, guid)|
    ensures i < |Chain(s, guid)| ==>
              Chain(s, guid)[i] != "" && Chain(s, guid)[i] in Without(s, Chain(s, guid)[..i])
  {
    var c := Chain(s, guid);
    if i < |c| {
      assert c[i] !in c[..i];
    }
  }

  /** One step of the walk of DeleteRequestChain: a node still in the store
    * is the next one of the chain, and removing it extends the deleted
    * prefix by its row. */
  lemma DeleteWalkStep(s: Requests, guid: string, i: nat, cur: Requests, g: string)
    requires i < |Chain(s, guid)| && cur == Without(s, Chain(s, guid)[..i]) && g == WalkAt(s, guid, i)
    ensures g in cur && cur[g] == s[g] && cur[g].nextRequest == WalkAt(s, guid, i + 1)
    ensures Without(s, Chain(s, guid)[..i + 1]) == cur - {g}
    ensures Rows(s, Chain(s, guid)[..i + 1]) == Rows(s, Chain(s, guid)[..i]) + [cur[g]]
  {
    var c := Chain(s, guid);
    WithoutStep(s, c, i);
    RowsSnoc(s, c, i);
    WalkNext(s, guid, i);
  }

  /** The rows that are not in `nodes`. */
  function Without(s: Requests, nodes: seq<string>): (r: Requests)
    ensures forall g :: g in r <==> g in s && g !in nodes
    ensures forall g :: g in r ==> r[g] == s[g]
  {
    map g | g in s && g !in nodes :: s[g]
  }

  lemma WithoutStep(s: Requests, nodes: seq<string>, i: nat)
    requires i < |nodes|
    ensures Without(s, nodes[..i + 1]) == Without(s, nodes[..i]) - {nodes[i]}
  {
    assert nodes[..i + 1] == nodes[..i] + [nodes[i]];
  }

  lemma WithoutIsRemoval(s: Requests, nodes: seq<string>)
    ensures Without(s, nodes) == s - (set g | g in nodes)
  {
  }

  /** The rows of `nodes`, in order. */
  function Rows(s: Requests, nodes: seq<string>): (r: seq<UserRequest>)
    requires forall i :: 0 <= i < |nodes| ==> nodes[i] in s
    ensures |r| == |nodes| && forall i :: 0 <= i < |nodes| ==> r[i] == s[nodes[i]]
  {
    if nodes == [] then [] else [s[nodes[0]]] + Rows(s, nodes[1..])
  }

  lemma RowsSnoc(s: Requests, nodes: seq<string>, i: nat)
    requires i < |nodes| && forall j :: 0 <= j < |nodes| ==> nodes[j] in s
    ensures Rows(s, nodes[..i + 1]) == Rows(s, nodes[..i]) + [s[nodes[i]]]
  {
    var a := Rows(s, nodes[..i + 1]);
    var b := Rows(s, nodes[..i]) + [s[nodes[i]]];
    assert |a| == |b|;
    forall j | 0 <= j < |a|
      ensures a[j] == b[j]
    {
    }
  }

  // -----------------------------------------------------------------------
  // Queries
  // -----------------------------------------------------------------------

  /** The rows satisfying `keep`, keyed as before. */
  predicate IsFilter(s: Requests, r: Requests, keep: UserRequest -> bool)
  {
    r.Keys <= s.Keys && (forall g :: g in r ==> r[g] == s[g])
    && forall g :: g in s ==> (g in r <==> keep(s[g]))
  }

  /** GetIncompleteUserRequests: non-composite requests still Processing or
    * Queued. */
  function GetIncompleteUserRequests(s: Requests): (r: Requests)
    ensures IsFilter(s, r, (x: UserRequest) => x.requestType != Composite
                                              && (x.status == Processing || x.status == Queued))
  {
    map g | g in s && s[g].requestType != Composite
                   && (s[g].status == Processing || s[g].status == Queued) :: s[g]
  }

  /** GetIncompleteCompositeUserRequests: composite nodes still Requested,
    * Queued or Processing. */
  function GetIncompleteCompositeUserRequests(s: Requests): (r: Requests)
    ensures IsFilter(s, r, (x: UserRequest) => x.requestType == Composite
                                              && (x.status == Requested || x.status == Queued
                                                  || x.status == Processing))
  {
    map g | g in s && s[g].requestType == Composite
                   && (s[g].status == Requested || s[g].status == Queued
                       || s[g].status == Processing) :: s[g]
  }

  /** GetBatchUserRequests(userId): the user's requests that are neither
    * single-address nor composite. */
  function GetBatchUserRequests(s: Requests, userId: string): (r: Requests)
    ensures IsFilter(s, r, (x: UserRequest) => x.userId == userId
                                              && x.requestType != SingleAddress
                                              && x.requestType != Composite)
  {
    map g | g in s && s[g].userId == userId && s[g].requestType != SingleAddress
                   && s[g].requestType != Composite :: s[g]
  }

  /** GetCompositeUserRequests(userId): the user's composite nodes. */
  function GetCompositeUserRequests(s: Requests, userId: string): (r: Requests)
    ensures IsFilter(s, r, (x: UserRequest) => x.userId == userId && x.requestType == Composite)
  {
    map g | g in s && s[g].userId == userId && s[g].requestType == Composite :: s[g]
  }

  /** GetUserRequest(guid): the row, unless it is a single-address one. */
  function GetUserRequest(s: Requests, guid: string): (r: Option<UserRequest>)
    ensures r.Some? <==> guid in s && s[guid].requestType != SingleAddress
    ensures r.Some? ==> r.value == s[guid]
  {
    if guid in s && s[guid].requestType != SingleAddress then Some(s[guid]) else None
  }

  /** GetBatchUserRequests(userId, guid): the row, when it is the user's and
    * not a single-address one. */
  function GetBatchUserRequest(s: Requests, userId: string, guid: string): (r: Option<UserRequest>)
    ensures r.Some? <==> guid in s && s[guid].userId == userId && s[guid].requestType != SingleAddress
    ensures r.Some? ==> r.value == s[guid]
  {
    if guid in s && s[guid].userId == userId && s[guid].requestType != SingleAddress
    then Some(s[guid]) else None
  }

  /** The two incomplete queries split the unfinished work: each request
    * that is Processing or Queued is returned by exactly one of them, and
    * a Requested node only by the composite one. */
  lemma IncompleteSplit(s: Requests, g: string)
    requires g in s
    ensures s[g].status == Processing || s[g].status == Queued ==>
              (g in GetIncompleteUserRequests(s) <==> g !in GetIncompleteCompositeUserRequests(s))
    ensures g in GetIncompleteUserRequests(s) ==> g !in GetIncompleteCompositeUserRequests(s)
    ensures s[g].status == Requested ==>
              g !in GetIncompleteUserRequests(s)
              && (g in GetIncompleteCompositeUserRequests(s) <==> s[g].requestType == Composite)
  {
  }

  // -----------------------------------------------------------------------
  // The repository
  // -----------------------------------------------------------------------

  datatype StoreError = DuplicateKey(key: string)

  class UserRequestRepository {
    const db: UserRequestsDbContext

    constructor(db: UserRequestsDbContext)
      ensures this.db == db
    {
      this.db := db;
    }

    /** Insert a row and return its GUID; SaveChanges throws on a key that
      * is already taken. */
    method AddUserRequest(request: UserRequest) returns (r: Result<string, StoreError>)
      modifies db
      ensures request.guid in old(db.requests) ==>
                r == Err(DuplicateKey(request.guid)) && db.requests == old(db.requests)
      ensures request.guid !in old(db.requests) ==>
                r == Ok(request.guid) && db.requests == old(db.requests)[request.guid := request]
      ensures db.records == old(db.records)
    {
      if request.guid in db.requests {
        return Err(DuplicateKey(request.guid));
      }
      db.requests := db.requests[request.guid := request];
      return Ok(request.guid);
    }

    /** Remove the chain starting at `guid` and return its rows in chain
      * order. */
    method DeleteRequestChain(guid: string) returns (deleted: seq<UserRequest>)
      modifies db
      ensures deleted == Rows(old(db.requests), Chain(old(db.requests), guid))
      ensures db.requests == Without(old(db.requests), Chain(old(db.requests), guid))
      ensures db.records == old(db.records)
    {
      ghost var s := db.requests;
      ghost var c := Chain(s, guid);
      ghost var i := 0;
      var g := guid;
      deleted := [];
      while g != "" && g in db.requests
        invariant 0 <= i <= |c|
        invariant db.requests == Without(s, c[..i])
        invariant g == WalkAt(s, guid, i)
        invariant deleted == Rows(s, c[..i])
        invariant db.records == old(db.records)
        decreases |c| - i
      {
        DeleteStillOnChain(s, guid, i, db.requests, g);
        DeleteWalkStep(s, guid, i, db.requests, g);
        var request := db.requests[g];
        deleted := deleted + [request];
        db.requests := db.requests - {g};
        g := request.nextRequest;
        i := i + 1;
      }
      DeleteWalkDone(s, guid, i, db.requests, g);
      assert c[..i] == c;
    }

    /** Set the status of one stored row and save it; return its link. */
    method SaveStatus(g: string, status: CommandStatus) returns (next: string)
      requires g in db.requests
      modifies db
      ensures next == old(db.requests)[g].nextRequest
      ensures db.requests == old(db.requests)[g := old(db.requests)[g].(status := status)]
      ensures db.records == old(db.records)
    {
      var request := db.requests[g];
      db.requests := db.requests[g := request.(status := status)];
      next := request.nextRequest;
    }

    /** Set `status` on every node of the chain starting at `guid`. The
      * walk does not remove what it visits, so it needs a closed chain. */
    method ApplyStatusToRequestChain(guid: string, status: CommandStatus)
      requires Closed(db.requests, guid)
      modifies db
      ensures db.requests == Stamped(old(db.requests), Chain(old(db.requests), guid), status)
      ensures db.records == old(db.records)
    {
      ghost var s := db.requests;
      ghost var c := Chain(s, guid);
      ghost var i := 0;
      var g := guid;
      StampedNothing(s, c, status);
      while g != "" && g in db.requests
        invariant 0 <= i <= |c|
        invariant db.requests == Stamped(s, c[..i], status)
        invariant g == WalkAt(s, guid, i)
        invariant db.records == old(db.records)
        decreases |c| - i
      {
        StillOnChain(s, guid, i, db.requests, g);
        StampWalkStep(s, guid, i, status, db.requests, g);
        g := SaveStatus(g, status);
        i := i + 1;
      }
      WalkDone(s, guid, i, db.requests, g);
      assert c[..i] == c;
    }
  }

  // -----------------------------------------------------------------------
  // Properties of the two walks
  // -----------------------------------------------------------------------

  /** A start GUID that names no row deletes nothing and stamps nothing. */
  lemma MissingStartDoesNothing(s: Requests, g: string, st: CommandStatus)
    requires g == "" || g !in s
    ensures Chain(s, g) == [] && Rows(s, Chain(s, g)) == []
    ensures Without(s, Chain(s, g)) == s && Stamped(s, Chain(s, g), st) == s
  {
  }

  /** Deleting a chain keeps every other chain closed, and stamping one
    * changes no chain at all. */
  lemma WalksKeepClosed(s: Requests, g: string, st: CommandStatus)
    requires AllClosed(s)
    ensures AllClosed(Without(s, Chain(s, g)))
    ensures AllClosed(Stamped(s, Chain(s, g), st))
    ensures forall h :: Chain(Stamped(s, Chain(s, g), st), h) == Chain(s, h)
  {
    RemovalKeepsClosed(s, set x | x in Chain(s, g));
    WithoutIsRemoval(s, Chain(s, g));
    StampedKeepsLinks(s, Chain(s, g), st);
    SameLinksKeepClosed(s, Stamped(s, Chain(s, g), st));
    forall h
      ensures Chain(Stamped(s, Chain(s, g), st), h) == Chain(s, h)
    {
      LinksDecideChains(s, Stamped(s, Chain(s, g), st), h);
    }
  }
}
