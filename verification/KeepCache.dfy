/**
 The cache of keeps behind the rewards calculation. A refresh scans only the blocks since the last
 cached event, less the depth a chain reorganisation can reach, and fetches the keeps it has not seen.
 */
module KeepCache {
  import opened Wrappers
  import opened EventPulls

  const REORG_DEPTH_BLOCKS := 12

  datatype Created = Created(address: string, members: seq<string>)

  datatype StatusName = Active | Closed | Terminated

  datatype Status = Status(name: StatusName, timestamp: nat)

  datatype Keep = Keep(
    address: string, members: seq<string>, creationBlock: nat, creationTimestamp: nat, status: Status)

  /** The stored cache. */
  datatype Stored = Stored(keeps: seq<Keep>, lastRefreshBlock: nat)

  /** What the chain answers about a keep while its data is fetched. */
  datatype Details = Details(creationTimestamp: nat, status: Status)

  /** The fetches that completed, in the order they did, and whether all of them succeeded. */
  datatype Fetches = Fetches(completed: seq<Event<Created>>, failed: bool)

  datatype Failure = EventsNotPulled | FetchFailed | NoEvents

  predicate Caches(keeps: seq<Keep>, address: string) {
    exists i :: 0 <= i < |keeps| && keeps[i].address == address
  }

  /** The created keeps that are not in the cache yet: one fetch each. */
  function Missing(keeps: seq<Keep>, events: seq<Event<Created>>): (r: seq<Event<Created>>)
    ensures forall e :: e in r <==> e in events && !Caches(keeps, e.data.address)
  {
    if events == [] then []
    else
      assert events == [events[0]] + events[1..];
      (if Caches(keeps, events[0].data.address) then [] else [events[0]]) + Missing(keeps, events[1..])
  }

  function FullKeep(e: Event<Created>, details: Event<Created> -> Details): Keep {
    Keep(e.data.address, e.data.members, e.block, details(e).creationTimestamp, details(e).status)
  }

  function FullKeeps(events: seq<Event<Created>>, details: Event<Created> -> Details): seq<Keep> {
    seq(|events|, i requires 0 <= i < |events| => FullKeep(events[i], details))
  }

  /** The fetches run concurrently: any of them complete in any order, and all of them unless one fails. */
  ghost predicate Possible(fetches: Fetches, missing: seq<Event<Created>>) {
    && multiset(fetches.completed) <= multiset(missing)
    && (!fetches.failed ==> multiset(fetches.completed) == multiset(missing))
  }

  function StartBlock(lastRefreshBlock: nat): nat {
    if lastRefreshBlock - REORG_DEPTH_BLOCKS > 0 then lastRefreshBlock - REORG_DEPTH_BLOCKS else 0
  }

  class Cache {
    var keeps: seq<Keep>
    var lastRefreshBlock: nat

    constructor (factoryDeploymentBlock: nat)
      ensures keeps == [] && lastRefreshBlock == factoryDeploymentBlock
    {
      keeps := [];
      lastRefreshBlock := factoryDeploymentBlock;
    }

    /** `pulled` is what the pull from the start block gave. */
    method FetchNewKeeps(
      pulled: Result<seq<Event<Created>>, PullError>, fetches: Fetches, details: Event<Created> -> Details)
      returns (error: Option<Failure>)
      requires pulled.Ok? ==> Possible(fetches, Missing(keeps, pulled.value))
      modifies this
      ensures Stored(keeps, lastRefreshBlock)
           == Refreshed(old(Stored(keeps, lastRefreshBlock)), pulled, fetches, details)
      ensures error == Outcome(pulled, fetches)
    {
      if pulled.Err? {
        return Some(EventsNotPulled);
      }
      var keepCreatedEvents := pulled.value;
      ghost var cached := keeps;
      var i := 0;
      while i < |fetches.completed|
        invariant 0 <= i <= |fetches.completed|
        invariant keeps == cached + FullKeeps(fetches.completed[..i], details)
        invariant lastRefreshBlock == old(lastRefreshBlock)
      {
        keeps := keeps + [FullKeep(fetches.completed[i], details)];
        i := i + 1;
        assert keeps == cached + FullKeeps(fetches.completed[..i], details);
      }
      assert fetches.completed[..i] == fetches.completed;
      if fetches.failed {
        return Some(FetchFailed);
      }
      if keepCreatedEvents == [] {
        return Some(NoEvents);
      }
      lastRefreshBlock := keepCreatedEvents[|keepCreatedEvents| - 1].block;
      return None;
    }

    /**
     Asks for the status of every keep that was active, and stores those that changed. The queries run
     concurrently: when one fails so does the refresh, and only those in `completed` are stored.
     */
    method RefreshActiveKeeps(current: string -> Option<Status>, completed: set<string>) returns (failed: bool)
      requires Distinct(keeps)
      requires AllAnswered(keeps, current) ==>
                 forall i :: 0 <= i < |keeps| && keeps[i].status.name == Active ==> keeps[i].address in completed
      modifies this
      ensures failed <==> !AllAnswered(old(keeps), current)
      ensures lastRefreshBlock == old(lastRefreshBlock) && |keeps| == |old(keeps)|
      ensures forall i :: 0 <= i < |keeps| ==> keeps[i] == WithStatus(old(keeps)[i], current, completed)
      // nothing but a status changes, and only of a keep that was active and whose query completed
      ensures forall i :: 0 <= i < |keeps| ==> keeps[i].(status := old(keeps)[i].status) == old(keeps)[i]
      ensures forall i :: 0 <= i < |keeps| && keeps[i].status != old(keeps)[i].status ==>
                && old(keeps)[i].status.name == Active && keeps[i].address in completed
                && current(keeps[i].address) == Some(keeps[i].status)
      // without a failure every keep that was active has the status name the chain answered
      ensures !failed ==> forall i :: 0 <= i < |keeps| && old(keeps)[i].status.name == Active ==>
                current(keeps[i].address).Some? && keeps[i].status.name == current(keeps[i].address).value.name
    {
      failed := false;
      var i := 0;
      while i < |keeps|
        invariant 0 <= i <= |keeps| == |old(keeps)|
        invariant forall j :: 0 <= j < |keeps| ==>
                    keeps[j] == if j < i then WithStatus(old(keeps)[j], current, completed) else old(keeps)[j]
        invariant failed <==> !AllAnswered(old(keeps)[..i], current)
        invariant lastRefreshBlock == old(lastRefreshBlock)
      {
        assert old(keeps)[..i + 1] == old(keeps)[..i] + [old(keeps)[i]];
        if keeps[i].status.name == Active {
          var currentStatus := current(keeps[i].address);
          if currentStatus.None? {
            failed := true;
          } else if keeps[i].address in completed && keeps[i].status.name != currentStatus.value.name {
            keeps := keeps[i := keeps[i].(status := currentStatus.value)];
          }
        }
        i := i + 1;
      }
      assert old(keeps)[..i] == old(keeps);
    }
  }

  predicate AllAnswered(keeps: seq<Keep>, current: string -> Option<Status>) {
    forall i :: 0 <= i < |keeps| && keeps[i].status.name == Active ==> current(keeps[i].address).Some?
  }

  function WithStatus(keep: Keep, current: string -> Option<Status>, completed: set<string>): Keep {
    var status := current(keep.address);
    if keep.status.name == Active && keep.address in completed && status.Some? && status.value.name != Active
    then keep.(status := status.value) else keep
  }

  /** The error of a refresh; a scan without any event fails too, when it looks for the last one. */
  function Outcome(pulled: Result<seq<Event<Created>>, PullError>, fetches: Fetches): Option<Failure> {
    if pulled.Err? then Some(EventsNotPulled)
    else if fetches.failed then Some(FetchFailed)
    else if pulled.value == [] then Some(NoEvents)
    else None
  }

  function Refreshed(
    stored: Stored, pulled: Result<seq<Event<Created>>, PullError>,
    fetches: Fetches, details: Event<Created> -> Details): Stored
  {
    if pulled.Err? then stored
    else
      Stored(stored.keeps + FullKeeps(fetches.completed, details),
             if Outcome(pulled, fetches).Some? then stored.lastRefreshBlock
             else pulled.value[|pulled.value| - 1].block)
  }

  // ---- Reorganisations ----

  /** The keeps created on the canonical chain, and its latest block, at the time of a refresh. */
  datatype Chain = Chain(created: seq<Event<Created>>, head: nat) {
    ghost predicate Valid() {
      && Ordered(created)
      && (forall i :: 0 <= i < |created| ==> created[i].block <= head)
      && (forall i, j :: 0 <= i < j < |created| ==> created[i].data.address != created[j].data.address)
    }
  }

  /** No reorganisation reaches deeper than its limit: the older blocks of the two chains are the same. */
  ghost predicate AgreesUpTo(c: Chain, d: Chain, block: int) {
    forall e: Event<Created> :: e.block <= block ==> (e in c.created <==> e in d.created)
  }

  /** The cache, and the chain its last successful refresh saw. */
  datatype State = State(stored: Stored, seen: Chain)

  datatype Refresh = Refresh(
    chain: Chain, pulls: bool, fetches: Fetches, details: Event<Created> -> Details)

  function Pulled(s: State, r: Refresh): Result<seq<Event<Created>>, PullError> {
    if r.pulls then Ok(Between(r.chain.created, StartBlock(s.stored.lastRefreshBlock), r.chain.head))
    else Err(RequestFailed)
  }

  ghost predicate Enabled(s: State, r: Refresh) {
    && r.chain.Valid()
    && AgreesUpTo(s.seen, r.chain, s.seen.head - REORG_DEPTH_BLOCKS)
    && (Pulled(s, r).Ok? ==> Possible(r.fetches, Missing(s.stored.keeps, Pulled(s, r).value)))
  }

  function Succeeds(s: State, r: Refresh): bool { Outcome(Pulled(s, r), r.fetches).None? }

  function Apply(s: State, r: Refresh): State {
    State(Refreshed(s.stored, Pulled(s, r), r.fetches, r.details), if Succeeds(s, r) then r.chain else s.seen)
  }

  ghost predicate IsRun(run: seq<State>, refreshes: seq<Refresh>) {
    && |run| == |refreshes| + 1
    && IsStart(run[0])
    && forall i :: 0 <= i < |refreshes| ==> Enabled(run[i], refreshes[i]) && run[i + 1] == Apply(run[i], refreshes[i])
  }

  /** The factory is deployed at the latest block, and has created nothing. */
  ghost predicate IsStart(s: State) {
    && s.stored.keeps == [] && s.seen.Valid() && s.seen.created == [] && s.seen.head == s.stored.lastRefreshBlock
  }

  predicate Covers(keeps: seq<Keep>, chain: Chain) {
    forall i :: 0 <= i < |chain.created| ==> Caches(keeps, chain.created[i].data.address)
  }

  predicate Distinct(keeps: seq<Keep>) {
    forall i, j :: 0 <= i < j < |keeps| ==> keeps[i].address != keeps[j].address
  }

  ghost predicate Invariant(s: State) {
    && s.seen.Valid() && Covers(s.stored.keeps, s.seen)
    && s.stored.lastRefreshBlock <= s.seen.head
  }

  lemma CachesMore(keeps: seq<Keep>, more: seq<Keep>, address: string)
    ensures Caches(keeps + more, address) <==> Caches(keeps, address) || Caches(more, address)
  {
    forall i | 0 <= i < |keeps| ensures (keeps + more)[i] == keeps[i] {}
    forall i | 0 <= i < |more| ensures (keeps + more)[|keeps| + i] == more[i] {}
  }

  lemma FetchedAreCached(events: seq<Event<Created>>, details: Event<Created> -> Details, e: Event<Created>)
    requires e in events
    ensures Caches(FullKeeps(events, details), e.data.address)
  {
    var i :| 0 <= i < |events| && events[i] == e;
    assert FullKeeps(events, details)[i].address == e.data.address;
  }

  /** A keep of the new chain is cached already, or is scanned and fetched. */
  lemma SuccessCovers(s: State, r: Refresh)
    requires Enabled(s, r) && Invariant(s) && Succeeds(s, r)
    ensures Covers(Apply(s, r).stored.keeps, r.chain)
  {
    var start, scanned := StartBlock(s.stored.lastRefreshBlock), Pulled(s, r).value;
    var missing := Missing(s.stored.keeps, scanned);
    var keeps' := Apply(s, r).stored.keeps;
    forall i | 0 <= i < |r.chain.created| ensures Caches(keeps', r.chain.created[i].data.address) {
      var e := r.chain.created[i];
      CachesMore(s.stored.keeps, FullKeeps(r.fetches.completed, r.details), e.data.address);
      BetweenExactly(r.chain.created, start, r.chain.head, e);
      if e.block < start {
        assert e in s.seen.created;
        var j :| 0 <= j < |s.seen.created| && s.seen.created[j] == e;
        assert Caches(s.stored.keeps, s.seen.created[j].data.address);
      } else if !Caches(s.stored.keeps, e.data.address) {
        assert e in missing;
        assert e in multiset(r.fetches.completed);
        FetchedAreCached(r.fetches.completed, r.details, e);
      }
    }
  }

  lemma StepKeepsInvariant(s: State, r: Refresh)
    requires Enabled(s, r) && Invariant(s)
    ensures Invariant(Apply(s, r))
  {
    if Succeeds(s, r) {
      SuccessCovers(s, r);
      var scanned := Pulled(s, r).value;
      var last := scanned[|scanned| - 1];
      BetweenExactly(r.chain.created, StartBlock(s.stored.lastRefreshBlock), r.chain.head, last);
    } else {
      forall i | 0 <= i < |s.seen.created| ensures Caches(Apply(s, r).stored.keeps, s.seen.created[i].data.address) {
        CachesMore(s.stored.keeps, FullKeeps(r.fetches.completed, r.details), s.seen.created[i].data.address);
      }
    }
  }

  lemma {:induction false} RunKeepsInvariant(run: seq<State>, refreshes: seq<Refresh>, i: nat)
    requires IsRun(run, refreshes) && i < |run|
    ensures Invariant(run[i])
  {
    if i > 0 {
      RunKeepsInvariant(run, refreshes, i - 1);
      StepKeepsInvariant(run[i - 1], refreshes[i - 1]);
    }
  }

  /**
   Incremental refresh equals a full rescan for completeness: after every successful refresh of every
   run the cache holds each keep of the canonical chain, although only recent blocks were scanned.
   */
  lemma RefreshIsComplete(run: seq<State>, refreshes: seq<Refresh>, i: nat)
    requires IsRun(run, refreshes) && i < |refreshes| && Succeeds(run[i], refreshes[i])
    ensures Covers(run[i + 1].stored.keeps, refreshes[i].chain)
  {
    RunKeepsInvariant(run, refreshes, i + 1);
  }

  /** A failed refresh never moves the block the next one starts from; a successful one moves it to the last event. */
  lemma FailureKeepsTheStart(run: seq<State>, refreshes: seq<Refresh>, i: nat)
    requires IsRun(run, refreshes) && i < |refreshes|
    ensures !Succeeds(run[i], refreshes[i]) ==>
              run[i + 1].stored.lastRefreshBlock == run[i].stored.lastRefreshBlock
    ensures Succeeds(run[i], refreshes[i]) ==>
              exists e :: e in refreshes[i].chain.created && run[i + 1].stored.lastRefreshBlock == e.block
    ensures run[i].stored.keeps <= run[i + 1].stored.keeps
  {
    var s, r := run[i], refreshes[i];
    hide Enabled, Between, FullKeeps;
    if Succeeds(s, r) {
      var scanned := Pulled(s, r).value;
      BetweenExactly(r.chain.created, StartBlock(s.stored.lastRefreshBlock), r.chain.head, scanned[|scanned| - 1]);
    }
  }

  // ---- What the entries say ----

  /** The entry tells what the event and the chain's answers say about the keep. */
  predicate Describes(keep: Keep, e: Event<Created>, details: Event<Created> -> Details) {
    && keep.address == e.data.address && keep.members == e.data.members && keep.creationBlock == e.block
    && keep.creationTimestamp == details(e).creationTimestamp && keep.status == details(e).status
  }

  /**
   A refresh leaves the old entries alone and appends one for each fetch that completed: it describes a
   scanned keep that was not cached. If no fetch failed, every such keep has been fetched.
   */
  lemma NewEntriesExactly(s: State, r: Refresh)
    requires Enabled(s, r) && r.pulls
    ensures var keeps, keeps', scanned := s.stored.keeps, Apply(s, r).stored.keeps, Pulled(s, r).value;
            && keeps <= keeps' && DescribeAll(keeps'[|keeps|..], r.fetches.completed, r.details)
            && (forall e :: e in r.fetches.completed ==> e in scanned && !Caches(keeps, e.data.address))
            && (!r.fetches.failed ==>
                  forall e :: e in scanned && !Caches(keeps, e.data.address) ==> e in r.fetches.completed)
  {
    var keeps, keeps', scanned := s.stored.keeps, Apply(s, r).stored.keeps, Pulled(s, r).value;
    CompletedAreMissing(r.fetches, Missing(keeps, scanned));
    var entries := FullKeeps(r.fetches.completed, r.details);
    FullKeepsDescribe(r.fetches.completed, r.details);
    assert keeps' == keeps + entries;
    hide *;
    assert keeps'[|keeps|..] == entries;
  }

  predicate DescribeAll(entries: seq<Keep>, completed: seq<Event<Created>>, details: Event<Created> -> Details) {
    |entries| == |completed| && forall i :: 0 <= i < |entries| ==> Describes(entries[i], completed[i], details)
  }

  lemma FullKeepsDescribe(completed: seq<Event<Created>>, details: Event<Created> -> Details)
    ensures DescribeAll(FullKeeps(completed, details), completed, details)
  {
  }

  lemma CompletedAreMissing(fetches: Fetches, missing: seq<Event<Created>>)
    requires Possible(fetches, missing)
    ensures forall e :: e in fetches.completed ==> e in missing
    ensures !fetches.failed ==> forall e :: e in missing ==> e in fetches.completed
  {
    assert forall e :: e in fetches.completed ==> e in multiset(fetches.completed);
    assert forall e :: e in missing ==> e in multiset(missing);
  }

  // ---- When a refresh fails although every call succeeds ----

  /** With every call succeeding, a refresh fails exactly when no keep was created from its start block on. */
  lemma QuietRefreshFailsExactly(s: State, r: Refresh)
    requires Enabled(s, r) && r.pulls && !r.fetches.failed
    ensures !Succeeds(s, r) <==>
              forall e :: e in r.chain.created ==> e.block < StartBlock(s.stored.lastRefreshBlock)
  {
    var start, scanned := StartBlock(s.stored.lastRefreshBlock), Pulled(s, r).value;
    if Succeeds(s, r) {
      BetweenExactly(r.chain.created, start, r.chain.head, scanned[0]);
      assert scanned[0] in r.chain.created && scanned[0].block >= start;
    } else {
      forall e | e in r.chain.created ensures e.block < start {
        BetweenExactly(r.chain.created, start, r.chain.head, e);
        var i :| 0 <= i < |r.chain.created| && r.chain.created[i] == e;
      }
    }
  }

  /** The start of the next scan is the block of a keep on the chain last seen. */
  ghost predicate Anchored(s: State) {
    exists e :: e in s.seen.created && e.block == s.stored.lastRefreshBlock
  }

  lemma {:induction false} RunStaysAnchored(run: seq<State>, refreshes: seq<Refresh>, i: nat, j: nat)
    requires IsRun(run, refreshes) && i < j < |run| && Succeeds(run[i], refreshes[i])
    ensures Anchored(run[j])
    decreases j
  {
    hide Succeeds, Anchored, Enabled, Apply;
    var s, r := run[j - 1], refreshes[j - 1];
    if Succeeds(s, r) {
      SuccessAnchors(s, r);
    } else {
      RunStaysAnchored(run, refreshes, i, j - 1);
      FailureStaysAnchored(s, r);
    }
  }

  lemma SuccessAnchors(s: State, r: Refresh)
    requires Succeeds(s, r)
    ensures Anchored(Apply(s, r))
  {
    var scanned := Pulled(s, r).value;
    var last := scanned[|scanned| - 1];
    BetweenExactly(r.chain.created, StartBlock(s.stored.lastRefreshBlock), r.chain.head, last);
    hide Between;
    assert last in Apply(s, r).seen.created && last.block == Apply(s, r).stored.lastRefreshBlock;
  }

  lemma FailureStaysAnchored(s: State, r: Refresh)
    requires !Succeeds(s, r) && Anchored(s)
    ensures Anchored(Apply(s, r))
  {
    hide Between;
    var e :| e in s.seen.created && e.block == s.stored.lastRefreshBlock;
    assert e in Apply(s, r).seen.created;
  }

  /**
   After a first success, a refresh whose calls succeed can fail only while the last event is young
   enough for a reorganisation to have removed it.
   */
  lemma QuietOnlyAfterReorganisation(run: seq<State>, refreshes: seq<Refresh>, i: nat, j: nat)
    requires IsRun(run, refreshes) && i < j < |refreshes| && Succeeds(run[i], refreshes[i])
    requires refreshes[j].pulls && !refreshes[j].fetches.failed && !Succeeds(run[j], refreshes[j])
    ensures run[j].stored.lastRefreshBlock > run[j].seen.head - REORG_DEPTH_BLOCKS
    ensures forall e :: e in run[j].seen.created && e.block >= StartBlock(run[j].stored.lastRefreshBlock) ==>
              e !in refreshes[j].chain.created
  {
    var s, r := run[j], refreshes[j];
    RunStaysAnchored(run, refreshes, i, j);
    var e :| e in s.seen.created && e.block == s.stored.lastRefreshBlock;
    QuietRefreshFailsExactly(s, r);
    assert e in s.seen.created && e !in r.chain.created;
  }

  // ---- One entry per keep ----

  predicate DistinctEvents(events: seq<Event<Created>>) {
    forall i, j :: 0 <= i < j < |events| ==> events[i].data.address != events[j].data.address
  }

  lemma {:induction false} ScanIsDistinct(events: seq<Event<Created>>, first: int, last: int)
    requires DistinctEvents(events)
    ensures DistinctEvents(Between(events, first, last))
    ensures forall e :: e in Between(events, first, last) ==> e in events
  {
    if events != [] {
      ScanIsDistinct(events[1..], first, last);
      forall e | e in events[1..] ensures e.data.address != events[0].data.address {
        var k :| 0 <= k < |events[1..]| && events[1..][k] == e;
        assert events[k + 1] == e;
      }
      forall k | 0 <= k < |Between(events[1..], first, last)|
        ensures Between(events[1..], first, last)[k] in events[1..] {}
    }
  }

  lemma {:induction false} MissingIsDistinct(keeps: seq<Keep>, events: seq<Event<Created>>)
    requires DistinctEvents(events)
    ensures DistinctEvents(Missing(keeps, events))
  {
    if events != [] {
      MissingIsDistinct(keeps, events[1..]);
    }
  }

  lemma SubMultisetIsDistinct(completed: seq<Event<Created>>, missing: seq<Event<Created>>)
    requires DistinctEvents(missing) && multiset(completed) <= multiset(missing)
    ensures DistinctEvents(completed)
  {
    forall i, j | 0 <= i < j < |completed| ensures completed[i].data.address != completed[j].data.address {
      assert completed[i] in multiset(missing) && completed[j] in multiset(missing);
      if completed[i] == completed[j] {
        TwiceInSequence(completed, i, j);
        OnceInDistinct(missing, completed[i]);
      }
    }
  }

  lemma TwiceInSequence<T>(s: seq<T>, i: nat, j: nat)
    requires i < j < |s| && s[i] == s[j]
    ensures multiset(s)[s[i]] >= 2
  {
    assert s == s[..j] + [s[j]] + s[j + 1..];
    assert s[i] == s[..j][i];
  }

  lemma {:induction false} OnceInDistinct(events: seq<Event<Created>>, e: Event<Created>)
    requires DistinctEvents(events)
    ensures multiset(events)[e] <= 1
  {
    if events != [] {
      OnceInDistinct(events[1..], e);
      assert events == [events[0]] + events[1..];
      assert e == events[0] ==> e !in events[1..];
    }
  }

  lemma {:induction false} RunKeepsDistinct(run: seq<State>, refreshes: seq<Refresh>, i: nat)
    requires IsRun(run, refreshes) && i < |run|
    ensures Distinct(run[i].stored.keeps)
  {
    if i > 0 {
      RunKeepsDistinct(run, refreshes, i - 1);
      var s, r := run[i - 1], refreshes[i - 1];
      assert Enabled(s, r);
      if Pulled(s, r).Ok? {
        var missing := Missing(s.stored.keeps, Pulled(s, r).value);
        ScanIsDistinct(r.chain.created, StartBlock(s.stored.lastRefreshBlock), r.chain.head);
        MissingIsDistinct(s.stored.keeps, Pulled(s, r).value);
        SubMultisetIsDistinct(r.fetches.completed, missing);
        AppendKeepsDistinct(s.stored.keeps, r.fetches.completed, missing, r.details);
      }
    }
  }

  lemma AppendKeepsDistinct(
    keeps: seq<Keep>, completed: seq<Event<Created>>, missing: seq<Event<Created>>, details: Event<Created> -> Details)
    requires Distinct(keeps) && DistinctEvents(completed) && multiset(completed) <= multiset(missing)
    requires forall e :: e in missing ==> !Caches(keeps, e.data.address)
    ensures Distinct(keeps + FullKeeps(completed, details))
  {
    var all := keeps + FullKeeps(completed, details);
    forall i, j | 0 <= i < j < |all| ensures all[i].address != all[j].address {
      if j >= |keeps| {
        var e := completed[j - |keeps|];
        assert e in multiset(missing);
        if i < |keeps| {
          assert !Caches(keeps, e.data.address);
        } else {
          assert completed[i - |keeps|].data.address != e.data.address;
        }
      }
    }
  }

  /** In every run each keep has one entry, so the entry found by its address is the only one. */
  lemma OneEntryPerKeep(run: seq<State>, refreshes: seq<Refresh>, i: nat, j: nat, k: nat)
    requires IsRun(run, refreshes) && i < |run| && j < |run[i].stored.keeps| && k < |run[i].stored.keeps|
    ensures run[i].stored.keeps[j].address == run[i].stored.keeps[k].address <==> j == k
  {
    RunKeepsDistinct(run, refreshes, i);
  }

  // ---- What a reorganisation leaves behind ----

  /**
   A keep that is mined again in another block keeps its old entry: after a refresh the entry gives
   the creation block of the chain exactly when it is new or gave that block before.
   */
  lemma CreationBlockExactly(s: State, r: Refresh, e: Event<Created>, i: nat)
    requires Enabled(s, r) && Succeeds(s, r) && e in r.chain.created
    requires Distinct(Apply(s, r).stored.keeps)
    requires i < |Apply(s, r).stored.keeps| && Apply(s, r).stored.keeps[i].address == e.data.address
    ensures Apply(s, r).stored.keeps[i].creationBlock == e.block
       <==> i >= |s.stored.keeps| || s.stored.keeps[i].creationBlock == e.block
  {
    if i >= |s.stored.keeps| {
      NewEntry(s, r, i);
      var c := r.fetches.completed[i - |s.stored.keeps|];
      SameAddressSameEvent(r.chain, c, e);
    }
  }

  lemma NewEntry(s: State, r: Refresh, i: nat)
    requires Enabled(s, r) && Succeeds(s, r)
    requires |s.stored.keeps| <= i < |Apply(s, r).stored.keeps|
    ensures var c := r.fetches.completed[i - |s.stored.keeps|];
            c in r.chain.created && Apply(s, r).stored.keeps[i] == FullKeep(c, r.details)
  {
    var c := r.fetches.completed[i - |s.stored.keeps|];
    assert c in multiset(r.fetches.completed);
    assert c in Missing(s.stored.keeps, Pulled(s, r).value);
    BetweenExactly(r.chain.created, StartBlock(s.stored.lastRefreshBlock), r.chain.head, c);
  }

  lemma SameAddressSameEvent(chain: Chain, c: Event<Created>, e: Event<Created>)
    requires chain.Valid() && c in chain.created && e in chain.created && c.data.address == e.data.address
    ensures c == e
  {
    var i :| 0 <= i < |chain.created| && chain.created[i] == c;
    var j :| 0 <= j < |chain.created| && chain.created[j] == e;
  }
}
