/** What the firewall has learned from the chain it does not ask again: how long each answer is kept. */
module FirewallMemory {
  import opened Wrappers
  import opened TimeCaches
  import opened Firewall
  import opened FirewallProperties
  import opened FirewallPolicy

  // ---- Authorisations ----

  /** The answer given at `time` is in the cache it belongs to. */
  predicate Answered(s: Caches, peer: string, time: int, authorized: bool) {
    if authorized
    then peer in s.authorized && s.authorized[peer] == time
    else peer in s.nonAuthorized && s.nonAuthorized[peer] == time && peer !in s.authorized
  }

  lemma ValidateKeepsAnswer(s: Caches, e: Instant, peer: string, time: int, authorized: bool)
    requires Answered(s, peer, time, authorized) && e.now <= time + AUTHORIZATION_CACHE_PERIOD
    ensures Answered(ValidateResult(s, e).0, peer, time, authorized)
  {
    var s1 := AuthorizationResult(s, e).0;
    assert Answered(s1, peer, time, authorized);
    hide Scan, AuthorizationResult;
    ScanFrame(SweptMembers(s1, e.now), e, |e.chain.ids| - 1);
  }

  lemma {:induction false} AnswerStays(s: Caches, h: seq<Instant>, peer: string, time: int, authorized: bool)
    requires Answered(s, peer, time, authorized)
    requires forall i :: 0 <= i < |h| ==> h[i].now <= time + AUTHORIZATION_CACHE_PERIOD
    ensures Answered(AfterAll(s, h), peer, time, authorized)
  {
    hide Answered, ValidateResult;
    if h != [] {
      var n := |h| - 1;
      AnswerStays(s, h[..n], peer, time, authorized);
      ValidateKeepsAnswer(AfterAll(s, h[..n]), h[n], peer, time, authorized);
    }
  }

  /**
   The chain's answer about a peer's authorisation is given again for the whole caching period, whatever
   peers are validated in between, and whatever the chain says or fails to say by then.
   */
  lemma AuthorizationIsKept(s: Caches, e: Instant, h: seq<Instant>, later: Instant)
    requires e.peer !in e.chain.staked && !e.faults.authorization
    requires e.peer !in Swept(s.authorized, AUTHORIZATION_CACHE_PERIOD, e.now)
    requires e.peer !in Swept(s.nonAuthorized, AUTHORIZATION_CACHE_PERIOD, e.now)
    requires forall i :: 0 <= i < |h| ==> h[i].now <= e.now + AUTHORIZATION_CACHE_PERIOD
    requires later.peer == e.peer && later.now <= e.now + AUTHORIZATION_CACHE_PERIOD
    ensures AuthorizationResult(AfterAll(ValidateResult(s, e).0, h), later).1
         == if e.peer in e.chain.authorized then Allowed else NoAuthorization
    ensures e.peer !in e.chain.authorized && later.peer !in later.chain.staked ==>
              ValidateResult(AfterAll(ValidateResult(s, e).0, h), later).1 == NoAuthorization
  {
    var granted := e.peer in e.chain.authorized;
    AnswerIsStored(s, e);
    AnswerStays(ValidateResult(s, e).0, h, e.peer, e.now, granted);
    hide ValidateResult;
    AnsweredPeer(AfterAll(ValidateResult(s, e).0, h), later, e.now, granted);
  }

  lemma AnswerIsStored(s: Caches, e: Instant)
    requires e.peer !in e.chain.staked && !e.faults.authorization
    requires e.peer !in Swept(s.authorized, AUTHORIZATION_CACHE_PERIOD, e.now)
    requires e.peer !in Swept(s.nonAuthorized, AUTHORIZATION_CACHE_PERIOD, e.now)
    ensures Answered(ValidateResult(s, e).0, e.peer, e.now, e.peer in e.chain.authorized)
  {
    var s1 := AuthorizationResult(s, e).0;
    assert Answered(s1, e.peer, e.now, e.peer in e.chain.authorized);
    hide Scan;
    ScanFrame(SweptMembers(s1, e.now), e, |e.chain.ids| - 1);
  }

  lemma AnsweredPeer(s: Caches, later: Instant, time: int, authorized: bool)
    requires Answered(s, later.peer, time, authorized) && later.now <= time + AUTHORIZATION_CACHE_PERIOD
    ensures AuthorizationResult(s, later).1 == if authorized then Allowed else NoAuthorization
    ensures !authorized && later.peer !in later.chain.staked ==> ValidateResult(s, later).1 == NoAuthorization
  {
    hide MembershipResult;
  }

  // ---- Keeps ----

  /** The caches answer every question about the keep at this index as `chain` did at `time`. */
  predicate KnowsKeep(s: Caches, chain: Chain, time: int, i: int)
    requires 0 <= i < |chain.ids|
  {
    var id := chain.ids[i];
    && i in s.indexToID && s.indexToID[i] == id
    && (id in s.isInactive <==> id !in chain.active)
    && (id in chain.active ==>
          && id in s.isActive && s.isActive[id] == time
          && id in s.members && id in chain.members && s.members[id] == chain.members[id])
  }

  predicate Knows(s: Caches, chain: Chain, time: int, from: int) {
    forall i :: 0 <= i < |chain.ids| && from < i ==> KnowsKeep(s, chain, time, i)
  }

  /** A keep that is known is not asked about again within the period, on any chain. */
  lemma VisitKeepsKnown(s: Caches, e: Instant, index: int, chain: Chain, time: int, i: int)
    requires 0 <= index < |e.chain.ids| && 0 <= i < |chain.ids|
    requires KnowsKeep(s, chain, time, i) && e.now <= time + ACTIVE_KEEP_MEMBER_CACHE_PERIOD
    ensures KnowsKeep(Visit(s, e, index), chain, time, i)
  {
    var (s1, found) := IndexResult(s, e, index);
    assert KnowsKeep(s1, chain, time, i);
    if found.Some? {
      var s2 := ActivityResult(s1, e, found.value).0;
      assert KnowsKeep(s2, chain, time, i);
    }
  }

  lemma {:induction false} ScanKeepsKnown(s: Caches, e: Instant, index: int, chain: Chain, time: int, from: int)
    requires index < |e.chain.ids| && Knows(s, chain, time, from)
    requires e.now <= time + ACTIVE_KEEP_MEMBER_CACHE_PERIOD
    ensures Knows(Scan(s, e, index).0, chain, time, from)
    decreases index + 1
  {
    hide Visit, ReachesMembers, KnowsKeep;
    if index >= 0 {
      forall i | 0 <= i < |chain.ids| && from < i ensures KnowsKeep(Visit(s, e, index), chain, time, i) {
        VisitKeepsKnown(s, e, index, chain, time, i);
      }
      ScanKeepsKnown(Visit(s, e, index), e, index - 1, chain, time, from);
    }
  }

  /** The same keeps are known when the caches differ only elsewhere. */
  lemma KnownElsewhere(s: Caches, s': Caches, chain: Chain, time: int, from: int)
    requires s'.indexToID == s.indexToID && s'.isActive == s.isActive
    requires s'.isInactive == s.isInactive && s'.members == s.members
    requires Knows(s, chain, time, from)
    ensures Knows(s', chain, time, from)
  {
    forall i | 0 <= i < |chain.ids| && from < i ensures KnowsKeep(s', chain, time, i) {
      assert KnowsKeep(s, chain, time, i);
    }
  }

  lemma SearchedFrame(s: Caches, e: Instant)
    ensures var s' := Searched(s, e);
            && s'.indexToID == s.indexToID && s'.isActive == s.isActive
            && s'.isInactive == s.isInactive && s'.members == s.members
  {
  }

  lemma ValidateKeepsKnown(s: Caches, e: Instant, chain: Chain, time: int)
    requires Knows(s, chain, time, -1) && e.now <= time + ACTIVE_KEEP_MEMBER_CACHE_PERIOD
    ensures Knows(ValidateResult(s, e).0, chain, time, -1)
  {
    var swept, last := Searched(s, e), |e.chain.ids| - 1;
    SearchedFrame(s, e);
    KnownElsewhere(s, swept, chain, time, -1);
    ScanKeepsKnown(swept, e, last, chain, time, -1);
    var scanned := Scan(swept, e, last).0;
    KnownElsewhere(scanned, SearchResult(swept, e).0, chain, time, -1);
    KnownElsewhere(s, AuthorizationResult(s, e).0, chain, time, -1);
    hide Scan, AuthorizationResult, Knows;
  }

  lemma {:induction false} KnownStays(s: Caches, h: seq<Instant>, chain: Chain, time: int)
    requires Knows(s, chain, time, -1) && AllInPeriod(h, time)
    ensures Knows(AfterAll(s, h), chain, time, -1)
  {
    hide Knows, ValidateResult;
    if h != [] {
      var n := |h| - 1;
      KnownStays(s, h[..n], chain, time);
      ValidateKeepsKnown(AfterAll(s, h[..n]), h[n], chain, time);
    }
  }

  /** A turn without failing calls makes its keep known. */
  lemma VisitLearns(s: Caches, e: Instant, index: int)
    requires e.chain.Valid() && e.faults == NO_FAULTS && 0 <= index < |e.chain.ids| && ReadNow(s, e, index)
    ensures KnowsKeep(Visit(s, e, index), e.chain, e.now, index)
  {
    var id := e.chain.ids[index];
    var (s1, found) := IndexResult(s, e, index);
    assert found == Some(id);
    var (s2, active) := ActivityResult(s1, e, id);
    assert active == Some(id in e.chain.active);
  }

  /** A search that refuses its peer has gone through all the keeps. */
  lemma {:induction false} RefusingScanLearns(s: Caches, e: Instant, index: int)
    requires e.chain.Valid() && e.faults == NO_FAULTS && index < |e.chain.ids|
    requires ReadNow(s, e, index) && Knows(s, e.chain, e.now, index) && !Scan(s, e, index).1
    ensures Knows(Scan(s, e, index).0, e.chain, e.now, -1)
    decreases index + 1
  {
    hide Visit, ReachesMembers, ReadNow, KnowsKeep, VisibleMember;
    if index >= 0 {
      var next := Visit(s, e, index);
      VisitReads(s, e, index);
      VisitLearns(s, e, index);
      forall i | 0 <= i < |e.chain.ids| && index - 1 < i ensures KnowsKeep(next, e.chain, e.now, i) {
        if i > index {
          VisitKeepsKnown(s, e, index, e.chain, e.now, i);
        }
      }
      RefusingScanLearns(next, e, index - 1);
    }
  }

  lemma RefusalLearns(e: Instant)
    requires e.chain.Valid() && e.faults == NO_FAULTS && SearchRefuses(EMPTY_CACHES, e)
    ensures Knows(ValidateResult(EMPTY_CACHES, e).0, e.chain, e.now, -1)
  {
    var swept := Searched(EMPTY_CACHES, e);
    var last := |e.chain.ids| - 1;
    assert ReadNow(swept, e, last);
    RefusingScanLearns(swept, e, last);
    KnownElsewhere(Scan(swept, e, last).0, SearchResult(swept, e).0, e.chain, e.now, -1);
    hide Scan, Knows;
  }

  /** The peer is a member of an active keep at an index up to this one. */
  ghost predicate ListedUpTo(chain: Chain, peer: string, index: int) {
    exists i :: 0 <= i < |chain.ids| && i <= index && IsMember(chain, peer, i)
  }

  ghost predicate IsMember(chain: Chain, peer: string, i: int)
    requires 0 <= i < |chain.ids|
  {
    var id := chain.ids[i];
    id in chain.active && id in chain.members && peer in chain.members[id]
  }

  lemma VisitFromMemory(s: Caches, e: Instant, index: int, chain: Chain, time: int)
    requires |e.chain.ids| == |chain.ids| && 0 <= index < |chain.ids| && e.faults.lookup == {}
    requires KnowsKeep(s, chain, time, index) && e.now <= time + ACTIVE_KEEP_MEMBER_CACHE_PERIOD
    requires e.peer !in s.activeMembers
    ensures var found := ReachesMembers(s, e, index) && e.peer in Visit(s, e, index).activeMembers;
            && (found <==> IsMember(chain, e.peer, index))
            && (!found ==> e.peer !in Visit(s, e, index).activeMembers)
  {
    VisitAddsReached(s, e, index);
    InAddedAll(s.activeMembers, MembersReached(s, e, index), e.now, e.peer);
    hide Visit, AddedAll;
    assert IndexResult(s, e, index) == (s, Some(chain.ids[index]));
  }

  lemma {:induction false} ScanFromMemory(s: Caches, e: Instant, index: int, chain: Chain, time: int)
    requires |e.chain.ids| == |chain.ids| && index < |chain.ids| && e.faults.lookup == {}
    requires Knows(s, chain, time, -1) && e.now <= time + ACTIVE_KEEP_MEMBER_CACHE_PERIOD
    requires e.peer !in s.activeMembers
    ensures Scan(s, e, index).1 <==> ListedUpTo(chain, e.peer, index)
    decreases index + 1
  {
    hide Visit, ReachesMembers, KnowsKeep, IsMember;
    if index >= 0 {
      VisitFromMemory(s, e, index, chain, time);
      if !IsMember(chain, e.peer, index) {
        var next := Visit(s, e, index);
        forall i | 0 <= i < |chain.ids| && -1 < i ensures KnowsKeep(next, chain, time, i) {
          VisitKeepsKnown(s, e, index, chain, time, i);
        }
        ScanFromMemory(next, e, index - 1, chain, time);
      }
    }
  }

  /**
   After a search that went through all the keeps, the next searches of the period are answered from
   memory: a peer that has to be searched for is let in exactly if it was in an active keep then,
   whatever the calls about indexes, activity and members say or fail to say by now.
   */
  lemma KnownKeepsAreNotAskedAgain(e: Instant, h: seq<Instant>, later: Instant)
    requires e.chain.Valid() && e.faults == NO_FAULTS && SearchRefuses(EMPTY_CACHES, e)
    requires AllInPeriod(h, e.now) && InPeriod(later.now, e.now)
    requires |later.chain.ids| == |e.chain.ids| && later.faults.lookup == {}
    requires Searches(AfterAll(ValidateResult(EMPTY_CACHES, e).0, h), later)
    ensures ValidateResult(AfterAll(ValidateResult(EMPTY_CACHES, e).0, h), later).1 == Allowed
       <==> e.chain.InActiveKeep(later.peer)
  {
    var first := ValidateResult(EMPTY_CACHES, e).0;
    RefusalLearns(e);
    hide SearchRefuses, ValidateResult;
    KnownStays(first, h, e.chain, e.now);
    SearchFromMemory(AfterAll(first, h), later, e.chain, e.now);
  }

  lemma SearchFromMemory(s: Caches, later: Instant, chain: Chain, time: int)
    requires chain.Valid() && Knows(s, chain, time, -1) && InPeriod(later.now, time)
    requires |later.chain.ids| == |chain.ids| && later.faults.lookup == {} && Searches(s, later)
    ensures ValidateResult(s, later).1 == Allowed <==> chain.InActiveKeep(later.peer)
  {
    var swept, last := Searched(s, later), |chain.ids| - 1;
    SearchedFrame(s, later);
    KnownElsewhere(s, swept, chain, time, -1);
    hide Scan, AuthorizationResult, Knows;
    ScanFromMemory(swept, later, last, chain, time);
    if chain.InActiveKeep(later.peer) {
      var id :| id in chain.active && id in chain.members && later.peer in chain.members[id];
      assert chain.Listed(id);
      var i :| 0 <= i < |chain.ids| && chain.ids[i] == id;
      assert IsMember(chain, later.peer, i);
    }
  }
}
