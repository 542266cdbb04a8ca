/**
 The firewall policy: a peer is let in when it has the minimum stake, or is authorised and a
 member of some active keep. Answers of the chain are cached, so the policy is a function of the
 caches, the chain at one instant, and the set of chain calls that fail during the call.
 */
module Firewall {
  import opened Wrappers
  import opened TimeCaches

  /** Hours; the unit plays no role. */
  const AUTHORIZATION_CACHE_PERIOD: nat := 24
  const ACTIVE_KEEP_MEMBER_CACHE_PERIOD: nat := 168

  /** The chain at one instant. A keep is known by its identifier. */
  datatype Chain = Chain(
    ids: seq<string>,                    // keep index -> keep
    members: map<string, seq<string>>,   // keep -> operators
    active: set<string>,
    authorized: set<string>,
    staked: set<string>)
  {
    /** The factory lists exactly the keeps there are, and only they can be active. */
    ghost predicate Valid() {
      && (forall i :: 0 <= i < |ids| ==> ids[i] in members)
      && (forall id :: id in members ==> Listed(id))
      && (forall id :: id in active ==> id in members)
    }

    ghost predicate Listed(id: string) {
      exists i :: 0 <= i < |ids| && ids[i] == id
    }

    /** The peer belongs to a keep that is active at this instant. */
    ghost predicate InActiveKeep(peer: string) {
      exists id :: id in active && id in members && peer in members[id]
    }
  }

  /** The chain calls that fail during one validation. */
  datatype Faults = Faults(
    authorization: bool, count: bool, index: set<int>, lookup: set<string>, activity: set<string>,
    membership: set<string>)

  const NO_FAULTS := Faults(false, false, {}, {}, {}, {})

  datatype Verdict = Allowed | NoAuthorization | NoStakeNoActiveKeep | ChainFailure

  datatype Caches = Caches(
    authorized: map<string, int>,
    nonAuthorized: map<string, int>,
    activeMembers: map<string, int>,
    noActiveMembers: map<string, int>,
    indexToID: map<int, string>,
    isActive: map<string, int>,
    isInactive: set<string>,
    members: map<string, seq<string>>)

  const EMPTY_CACHES := Caches(map[], map[], map[], map[], map[], map[], {}, map[])

  /** One validation: the chain and its failing calls, the peer, and the clock. */
  datatype Instant = Instant(chain: Chain, faults: Faults, peer: string, now: int)

  // Each step below updates the caches once, with the new value of every map it touches.

  function AuthorizationResult(s: Caches, e: Instant): (Caches, Verdict) {
    var known := Swept(s.authorized, AUTHORIZATION_CACHE_PERIOD, e.now);
    var refused := Swept(s.nonAuthorized, AUTHORIZATION_CACHE_PERIOD, e.now);
    var asked := e.peer !in known && e.peer !in refused && !e.faults.authorization;
    var granted := e.peer in e.chain.authorized;
    (s.(authorized := if asked && granted then Added(known, e.peer, e.now) else known,
        nonAuthorized := if asked && !granted then Added(refused, e.peer, e.now) else refused),
     if e.peer in known then Allowed
     else if e.peer in refused then NoAuthorization
     else if e.faults.authorization then ChainFailure
     else if granted then Allowed
     else NoAuthorization)
  }

  function IndexResult(s: Caches, e: Instant, index: int): (Caches, Option<string>)
    requires 0 <= index < |e.chain.ids|
  {
    var asked := index !in s.indexToID && index !in e.faults.index;
    (s.(indexToID := if asked then s.indexToID[index := e.chain.ids[index]] else s.indexToID),
     if asked then Some(e.chain.ids[index])
     else if index in s.indexToID && s.indexToID[index] !in e.faults.lookup then Some(s.indexToID[index])
     else None)
  }

  function ActivityResult(s: Caches, e: Instant, id: string): (Caches, Option<bool>) {
    var known := if id in s.isInactive then s.isActive
                 else Swept(s.isActive, ACTIVE_KEEP_MEMBER_CACHE_PERIOD, e.now);
    var asked := id !in s.isInactive && id !in known && id !in e.faults.activity;
    var active := id in e.chain.active;
    (s.(isActive := if asked && active then Added(known, id, e.now) else known,
        isInactive := if asked && !active then s.isInactive + {id} else s.isInactive),
     if id in s.isInactive then Some(false)
     else if id in known then Some(true)
     else if asked then Some(active)
     else None)
  }

  /** A failing members call is answered with no members and no error. */
  function MembersResult(s: Caches, e: Instant, id: string): (Caches, seq<string>) {
    var asked := id !in s.members && id !in e.faults.membership && id in e.chain.members;
    (s.(members := if asked then s.members[id := e.chain.members[id]] else s.members),
     if id in s.members then s.members[id] else if asked then e.chain.members[id] else [])
  }

  function AddedAll(entries: map<string, int>, items: seq<string>, now: int): (r: map<string, int>)
    ensures r.Keys == entries.Keys + (set i | 0 <= i < |items| :: items[i])
    ensures forall k :: k in r ==> r[k] == if k in entries then entries[k] else now
    decreases |items|
  {
    if items == [] then entries
    else
      var rest := AddedAll(Added(entries, items[0], now), items[1..], now);
      assert items == [items[0]] + items[1..];
      assert (set i | 0 <= i < |items| :: items[i]) == {items[0]} + (set i | 0 <= i < |items[1..]| :: items[1..][i]);
      rest
  }

  /** One turn of the loop over the keeps. */
  function Visit(s: Caches, e: Instant, index: int): Caches
    requires 0 <= index < |e.chain.ids|
  {
    var (found, keep) := IndexResult(s, e, index);
    if keep.None? then found else VisitKeep(found, e, keep.value)
  }

  /** The members of an active keep are added to the caches; of any other keep nothing more is asked. */
  function VisitKeep(s: Caches, e: Instant, id: string): Caches {
    var (checked, active) := ActivityResult(s, e, id);
    var (read, members) := MembersResult(checked, e, id);
    if active != Some(true) then checked
    else read.(activeMembers := AddedAll(read.activeMembers, members, e.now))
  }

  /** A turn that reaches the members of an active keep ends the loop if the peer is cached by then. */
  predicate ReachesMembers(s: Caches, e: Instant, index: int)
    requires 0 <= index < |e.chain.ids|
  {
    var (s1, found) := IndexResult(s, e, index);
    found.Some? && ActivityResult(s1, e, found.value).1 == Some(true)
  }

  function Scan(s: Caches, e: Instant, index: int): (Caches, bool)
    requires index < |e.chain.ids|
    decreases index + 1
  {
    if index < 0 then (s, false)
    else
      var next := Visit(s, e, index);
      if ReachesMembers(s, e, index) && e.peer in next.activeMembers then (next, true)
      else Scan(next, e, index - 1)
  }

  function SweptMembers(s: Caches, now: int): Caches {
    s.(activeMembers := Swept(s.activeMembers, ACTIVE_KEEP_MEMBER_CACHE_PERIOD, now),
       noActiveMembers := Swept(s.noActiveMembers, ACTIVE_KEEP_MEMBER_CACHE_PERIOD, now))
  }

  /** The verdict that needs no search, if there is one. */
  function EarlyVerdict(s: Caches, e: Instant): Option<Verdict> {
    if e.peer in s.activeMembers then Some(Allowed)
    else if e.peer in s.noActiveMembers then Some(NoStakeNoActiveKeep)
    else if e.faults.count then Some(ChainFailure)
    else None
  }

  /** A peer that no searched keep has for a member is cached as such. */
  function SearchResult(s: Caches, e: Instant): (Caches, Verdict) {
    var (scanned, found) := Scan(s, e, |e.chain.ids| - 1);
    (scanned.(noActiveMembers := if found then scanned.noActiveMembers
                                 else Added(scanned.noActiveMembers, e.peer, e.now)),
     if found then Allowed else NoStakeNoActiveKeep)
  }

  function MembershipResult(s: Caches, e: Instant): (Caches, Verdict) {
    var swept := SweptMembers(s, e.now);
    if EarlyVerdict(swept, e).Some? then (swept, EarlyVerdict(swept, e).value) else SearchResult(swept, e)
  }

  function ValidateResult(s: Caches, e: Instant): (Caches, Verdict) {
    if e.peer in e.chain.staked then (s, Allowed)
    else
      var (s1, authorization) := AuthorizationResult(s, e);
      if authorization != Allowed then (s1, authorization) else MembershipResult(s1, e)
  }

  class KeepInfoCache {
    var indexToID: map<int, string>
    const isActive: TimeCache
    var isInactive: map<string, bool>
    var members: map<string, seq<string>>

    constructor (isActiveKeepCachePeriod: nat)
      ensures indexToID == map[] && isInactive == map[] && members == map[]
      ensures fresh(isActive) && isActive.entries == map[] && isActive.timespan == isActiveKeepCachePeriod
    {
      isActive := new TimeCache(isActiveKeepCachePeriod);
      indexToID, isInactive, members := map[], map[], map[];
    }
  }

  class StakeOrActiveKeepPolicy {
    const authorizedOperatorsCache: TimeCache
    const nonAuthorizedOperatorsCache: TimeCache
    const activeKeepMembersCache: TimeCache
    const noActiveKeepMembersCache: TimeCache
    const keepInfoCache: KeepInfoCache

    constructor ()
      ensures Valid() && fresh(Repr()) && Value() == EMPTY_CACHES
    {
      authorizedOperatorsCache := new TimeCache(AUTHORIZATION_CACHE_PERIOD);
      nonAuthorizedOperatorsCache := new TimeCache(AUTHORIZATION_CACHE_PERIOD);
      activeKeepMembersCache := new TimeCache(ACTIVE_KEEP_MEMBER_CACHE_PERIOD);
      noActiveKeepMembersCache := new TimeCache(ACTIVE_KEEP_MEMBER_CACHE_PERIOD);
      keepInfoCache := new KeepInfoCache(ACTIVE_KEEP_MEMBER_CACHE_PERIOD);
    }

    ghost function Repr(): set<object> {
      {authorizedOperatorsCache, nonAuthorizedOperatorsCache, activeKeepMembersCache,
       noActiveKeepMembersCache, keepInfoCache, keepInfoCache.isActive}
    }

    ghost predicate Valid()
      reads keepInfoCache
    {
      && authorizedOperatorsCache !in {nonAuthorizedOperatorsCache, activeKeepMembersCache,
                                       noActiveKeepMembersCache, keepInfoCache.isActive}
      && nonAuthorizedOperatorsCache !in {activeKeepMembersCache, noActiveKeepMembersCache, keepInfoCache.isActive}
      && activeKeepMembersCache !in {noActiveKeepMembersCache, keepInfoCache.isActive}
      && noActiveKeepMembersCache != keepInfoCache.isActive
      && authorizedOperatorsCache.timespan == nonAuthorizedOperatorsCache.timespan == AUTHORIZATION_CACHE_PERIOD
      && activeKeepMembersCache.timespan == noActiveKeepMembersCache.timespan
         == keepInfoCache.isActive.timespan == ACTIVE_KEEP_MEMBER_CACHE_PERIOD
      && forall k :: k in keepInfoCache.isInactive ==> keepInfoCache.isInactive[k]
    }

    ghost function Value(): Caches
      reads Repr()
    {
      Caches(authorizedOperatorsCache.entries, nonAuthorizedOperatorsCache.entries,
             activeKeepMembersCache.entries, noActiveKeepMembersCache.entries,
             keepInfoCache.indexToID, keepInfoCache.isActive.entries, keepInfoCache.isInactive.Keys,
             keepInfoCache.members)
    }

    method ValidateAuthorization(e: Instant) returns (verdict: Verdict)
      requires Valid()
      modifies Repr()
      ensures Valid() && (Value(), verdict) == AuthorizationResult(old(Value()), e)
    {
      authorizedOperatorsCache.Sweep(e.now);
      nonAuthorizedOperatorsCache.Sweep(e.now);
      if authorizedOperatorsCache.Has(e.peer) {
        return Allowed;
      }
      if nonAuthorizedOperatorsCache.Has(e.peer) {
        return NoAuthorization;
      }
      if e.faults.authorization {
        return ChainFailure;
      }
      if e.peer !in e.chain.authorized {
        nonAuthorizedOperatorsCache.Add(e.peer, e.now);
        return NoAuthorization;
      }
      authorizedOperatorsCache.Add(e.peer, e.now);
      return Allowed;
    }

    method GetKeepAtIndex(e: Instant, index: int) returns (keep: Option<string>)
      requires Valid() && 0 <= index < |e.chain.ids|
      modifies Repr()
      ensures Valid() && (Value(), keep) == IndexResult(old(Value()), e, index)
    {
      if index in keepInfoCache.indexToID {
        var cachedID := keepInfoCache.indexToID[index];
        return if cachedID in e.faults.lookup then None else Some(cachedID);
      }
      if index in e.faults.index {
        return None;
      }
      keepInfoCache.indexToID := keepInfoCache.indexToID[index := e.chain.ids[index]];
      return Some(e.chain.ids[index]);
    }

    method IsKeepActive(e: Instant, id: string) returns (active: Option<bool>)
      requires Valid()
      modifies Repr()
      ensures Valid() && (Value(), active) == ActivityResult(old(Value()), e, id)
    {
      if id in keepInfoCache.isInactive && keepInfoCache.isInactive[id] {
        return Some(false);
      }
      keepInfoCache.isActive.Sweep(e.now);
      if keepInfoCache.isActive.Has(id) {
        return Some(true);
      }
      if id in e.faults.activity {
        return None;
      }
      if id in e.chain.active {
        keepInfoCache.isActive.Add(id, e.now);
      } else {
        ghost var before := keepInfoCache.isInactive.Keys;
        keepInfoCache.isInactive := keepInfoCache.isInactive[id := true];
        assert keepInfoCache.isInactive.Keys == before + {id};
      }
      return Some(id in e.chain.active);
    }

    method GetKeepMembers(e: Instant, id: string) returns (members: seq<string>)
      requires Valid()
      modifies Repr()
      ensures Valid() && (Value(), members) == MembersResult(old(Value()), e, id)
    {
      if id in keepInfoCache.members {
        return keepInfoCache.members[id];
      }
      if id in e.faults.membership || id !in e.chain.members {
        return [];
      }
      keepInfoCache.members := keepInfoCache.members[id := e.chain.members[id]];
      return e.chain.members[id];
    }

    /** The loop that stores the members of one active keep. */
    method CacheMembers(e: Instant, members: seq<string>)
      requires Valid()
      modifies activeKeepMembersCache
      ensures Valid()
      ensures activeKeepMembersCache.entries == AddedAll(old(activeKeepMembersCache.entries), members, e.now)
    {
      var i := 0;
      while i < |members|
        invariant 0 <= i <= |members|
        invariant AddedAll(activeKeepMembersCache.entries, members[i..], e.now) ==
                  AddedAll(old(activeKeepMembersCache.entries), members, e.now)
      {
        activeKeepMembersCache.Add(members[i], e.now);
        assert members[i..][1..] == members[i + 1..];
        i := i + 1;
      }
    }

    /** The loop body: a failing call or an inactive keep moves on to the next keep. */
    method VisitKeep(e: Instant, index: int) returns (found: bool)
      requires Valid() && 0 <= index < |e.chain.ids|
      modifies Repr()
      ensures Valid() && Value() == Visit(old(Value()), e, index)
      ensures found <==> ReachesMembers(old(Value()), e, index) && e.peer in Value().activeMembers
    {
      var keep := GetKeepAtIndex(e, index);
      if keep.None? {
        return false;
      }
      var active := IsKeepActive(e, keep.value);
      if active != Some(true) {
        return false;
      }
      var members := GetKeepMembers(e, keep.value);
      CacheMembers(e, members);
      return activeKeepMembersCache.Has(e.peer);
    }

    /** The loop over all keeps, most recent first. */
    method ScanKeeps(e: Instant) returns (found: bool)
      requires Valid()
      modifies Repr()
      ensures Valid() && (Value(), found) == Scan(old(Value()), e, |e.chain.ids| - 1)
    {
      var keepIndex := |e.chain.ids| - 1;
      while keepIndex >= 0
        invariant Valid() && -1 <= keepIndex < |e.chain.ids|
        invariant Scan(Value(), e, keepIndex) == Scan(old(Value()), e, |e.chain.ids| - 1)
      {
        found := VisitKeep(e, keepIndex);
        if found {
          return true;
        }
        keepIndex := keepIndex - 1;
      }
      return false;
    }

    method ValidateActiveKeepMembership(e: Instant) returns (verdict: Verdict)
      requires Valid()
      modifies Repr()
      ensures Valid() && (Value(), verdict) == MembershipResult(old(Value()), e)
    {
      activeKeepMembersCache.Sweep(e.now);
      noActiveKeepMembersCache.Sweep(e.now);
      if activeKeepMembersCache.Has(e.peer) {
        return Allowed;
      }
      if noActiveKeepMembersCache.Has(e.peer) {
        return NoStakeNoActiveKeep;
      }
      if e.faults.count {
        return ChainFailure;
      }
      var found := ScanKeeps(e);
      if found {
        return Allowed;
      }
      noActiveKeepMembersCache.Add(e.peer, e.now);
      return NoStakeNoActiveKeep;
    }

    method Validate(e: Instant) returns (verdict: Verdict)
      requires Valid()
      modifies Repr()
      ensures Valid() && (Value(), verdict) == ValidateResult(old(Value()), e)
    {
      if e.peer in e.chain.staked {
        return Allowed;
      }
      verdict := ValidateAuthorization(e);
      if verdict == Allowed {
        verdict := ValidateActiveKeepMembership(e);
      }
    }
  }
}
