/** The verdicts compared with the policy itself: on empty caches exactly, later up to the age of an entry. */
module FirewallPolicy {
  import opened Wrappers
  import opened TimeCaches
  import opened Firewall
  import opened FirewallProperties

  // ---- Empty caches ----

  /** All the chain calls the scan makes for this keep succeed, and the keep is active. */
  predicate Visible(e: Instant, i: int)
    requires 0 <= i < |e.chain.ids|
  {
    var id := e.chain.ids[i];
    && i !in e.faults.index
    && id !in e.faults.activity
    && id in e.chain.active
    && id !in e.faults.membership
  }

  ghost predicate VisibleMember(e: Instant, i: int) {
    && 0 <= i < |e.chain.ids|
    && Visible(e, i)
    && e.chain.ids[i] in e.chain.members
    && e.peer in e.chain.members[e.chain.ids[i]]
  }

  /** Everything in the caches was read from the chain during this very scan, at an index above. */
  ghost predicate ReadNow(s: Caches, e: Instant, index: int) {
    && (forall i :: i in s.indexToID ==> i > index)
    && (forall id :: id in s.isActive ==> s.isActive[id] == e.now && id in e.chain.active && id !in e.faults.activity)
    && (forall id :: id in s.isInactive ==> id !in e.chain.active)
    && (forall id :: id in s.members ==>
          id !in e.faults.membership && id in e.chain.members && s.members[id] == e.chain.members[id])
    && e.peer !in s.activeMembers
  }

  lemma VisitKeepReads(s: Caches, e: Instant, index: int, id: string)
    requires ReadNow(s, e, index) && id in e.chain.members
    ensures var s' := VisitKeep(s, e, id);
            var active := ActivityResult(s, e, id).1 == Some(true);
            && (active <==> id in e.chain.active && id !in e.faults.activity)
            && (active && e.peer in s'.activeMembers <==>
                active && id !in e.faults.membership && e.peer in e.chain.members[id])
            && (!(active && e.peer in s'.activeMembers) ==> ReadNow(s', e, index))
  {
    var (s2, active) := ActivityResult(s, e, id);
    assert ReadNow(s2, e, index);
    var (s3, members) := MembersResult(s2, e, id);
    assert ReadNow(s3, e, index);
    assert members == if id in e.faults.membership then [] else e.chain.members[id];
  }

  lemma VisitReads(s: Caches, e: Instant, index: int)
    requires ReadNow(s, e, index) && e.chain.Valid() && 0 <= index < |e.chain.ids|
    ensures var s' := Visit(s, e, index);
            var found := ReachesMembers(s, e, index) && e.peer in s'.activeMembers;
            && (found <==> VisibleMember(e, index))
            && (!found ==> ReadNow(s', e, index - 1))
  {
    hide VisitKeep, ActivityResult;
    var (s1, keep) := IndexResult(s, e, index);
    assert ReadNow(s1, e, index - 1);
    if keep.Some? {
      VisitKeepReads(s1, e, index - 1, keep.value);
    }
  }

  lemma {:induction false} ScanFindsVisibleMember(s: Caches, e: Instant, index: int)
    requires ReadNow(s, e, index) && e.chain.Valid() && index < |e.chain.ids|
    ensures Scan(s, e, index).1 <==> exists i :: i <= index && VisibleMember(e, i)
    decreases index + 1
  {
    hide Visit, ReachesMembers, ReadNow, VisibleMember;
    if index >= 0 {
      VisitReads(s, e, index);
      if !VisibleMember(e, index) {
        ScanFindsVisibleMember(Visit(s, e, index), e, index - 1);
      }
    } else {
      NoNegativeIndex(e, index);
    }
  }

  lemma NoNegativeIndex(e: Instant, index: int)
    requires index < 0
    ensures !exists i :: i <= index && VisibleMember(e, i)
  {
  }

  /**
   The policy on empty caches, for any failing calls: the peer is let in exactly when it has the
   stake, or the chain says it is authorised and the scan sees it in some active keep.
   */
  lemma FirstVerdict(e: Instant)
    requires e.chain.Valid()
    ensures ValidateResult(EMPTY_CACHES, e).1 == Allowed <==>
            || e.peer in e.chain.staked
            || (&& !e.faults.authorization && e.peer in e.chain.authorized
                && !e.faults.count && exists i :: VisibleMember(e, i))
  {
    hide Scan, VisibleMember;
    var s1 := AuthorizationResult(EMPTY_CACHES, e).0;
    var swept := SweptMembers(s1, e.now);
    assert ReadNow(swept, e, |e.chain.ids| - 1);
    ScanFindsVisibleMember(swept, e, |e.chain.ids| - 1);
    forall i | VisibleMember(e, i) ensures i <= |e.chain.ids| - 1 {
      VisibleIndex(e, i);
    }
  }

  lemma VisibleIndex(e: Instant, i: int)
    requires VisibleMember(e, i)
    ensures 0 <= i < |e.chain.ids| && e.chain.InActiveKeep(e.peer)
  {
    assert e.chain.ids[i] in e.chain.active;
  }

  /** With no failing call this is the policy as documented, for any number of keeps. */
  lemma UncachedPolicy(e: Instant)
    requires e.chain.Valid() && e.faults == NO_FAULTS
    ensures ValidateResult(EMPTY_CACHES, e).1 == Allowed <==>
            || e.peer in e.chain.staked
            || (e.peer in e.chain.authorized && e.chain.InActiveKeep(e.peer))
  {
    hide ValidateResult;
    FirstVerdict(e);
    if i :| VisibleMember(e, i) {
      VisibleIndex(e, i);
    }
    if e.chain.InActiveKeep(e.peer) {
      var id :| id in e.chain.active && id in e.chain.members && e.peer in e.chain.members[id];
      assert e.chain.Listed(id);
      var i :| 0 <= i < |e.chain.ids| && e.chain.ids[i] == id;
      assert VisibleMember(e, i);
    }
  }

  // ---- A refusal is remembered ----

  /** The validation gets as far as the search for the peer. */
  predicate Searches(s: Caches, e: Instant) {
    var (s1, authorization) := AuthorizationResult(s, e);
    e.peer !in e.chain.staked && authorization == Allowed && EarlyVerdict(SweptMembers(s1, e.now), e).None?
  }

  function Searched(s: Caches, e: Instant): Caches {
    SweptMembers(AuthorizationResult(s, e).0, e.now)
  }

  predicate SearchRefuses(s: Caches, e: Instant) {
    Searches(s, e) && SearchResult(Searched(s, e), e).1 != Allowed
  }

  /** The members of the keep at this index if the scan takes it for active, and none otherwise. */
  function MembersReached(s: Caches, e: Instant, index: int): seq<string>
    requires 0 <= index < |e.chain.ids|
  {
    var (s1, found) := IndexResult(s, e, index);
    if found.None? then []
    else
      var (s2, active) := ActivityResult(s1, e, found.value);
      if active != Some(true) then [] else MembersResult(s2, e, found.value).1
  }

  /** Before it ends, the scan for one peer reaches an active keep that has `peer` among its members. */
  predicate ScanReaches(s: Caches, e: Instant, index: int, peer: string)
    requires index < |e.chain.ids|
    decreases index + 1
  {
    index >= 0
    && (|| peer in MembersReached(s, e, index)
        || (!(ReachesMembers(s, e, index) && e.peer in Visit(s, e, index).activeMembers)
            && ScanReaches(Visit(s, e, index), e, index - 1, peer)))
  }

  /** The validation of some peer makes this peer known as a member. */
  predicate BringsIn(s: Caches, e: Instant, peer: string) {
    Searches(s, e) && ScanReaches(Searched(s, e), e, |e.chain.ids| - 1, peer)
  }

  lemma VisitAddsReached(s: Caches, e: Instant, index: int)
    requires 0 <= index < |e.chain.ids|
    ensures Visit(s, e, index).activeMembers == AddedAll(s.activeMembers, MembersReached(s, e, index), e.now)
  {
  }

  lemma InAddedAll(entries: map<string, int>, items: seq<string>, now: int, peer: string)
    ensures peer in AddedAll(entries, items, now) <==> peer in entries || peer in items
    ensures peer in entries ==> AddedAll(entries, items, now)[peer] == entries[peer]
    ensures peer in items && peer !in entries ==> AddedAll(entries, items, now)[peer] == now
  {
  }

  lemma {:induction false} ScanAddsReached(s: Caches, e: Instant, index: int, peer: string)
    requires index < |e.chain.ids|
    ensures var members := Scan(s, e, index).0.activeMembers;
            && (peer in members <==> peer in s.activeMembers || ScanReaches(s, e, index, peer))
            && (peer in members ==>
                  members[peer] == if peer in s.activeMembers then s.activeMembers[peer] else e.now)
    decreases index + 1
  {
    if index >= 0 {
      VisitAddsReached(s, e, index);
      InAddedAll(s.activeMembers, MembersReached(s, e, index), e.now, peer);
      hide Visit, ReachesMembers, MembersReached, AddedAll;
      ScanAddsReached(Visit(s, e, index), e, index - 1, peer);
    }
  }

  /** The peer is cached as an outsider since `time`; if it is cached as a member, that came later. */
  predicate Remembers(s: Caches, peer: string, time: int) {
    && peer in s.noActiveMembers && s.noActiveMembers[peer] == time
    && (peer in s.activeMembers ==> InPeriod(s.activeMembers[peer], time))
  }

  predicate InPeriod(now: int, time: int) { time <= now <= time + ACTIVE_KEEP_MEMBER_CACHE_PERIOD }

  lemma RefusalIsCached(s: Caches, e: Instant)
    requires SearchRefuses(s, e)
    ensures Remembers(ValidateResult(s, e).0, e.peer, e.now)
    ensures e.peer !in ValidateResult(s, e).0.activeMembers
  {
    var swept, last := Searched(s, e), |e.chain.ids| - 1;
    hide Scan;
    ScanFrame(swept, e, last);
    ScanMissed(swept, e, last);
  }

  /** A scan that does not find its peer does not cache it as a member. */
  lemma {:induction false} ScanMissed(s: Caches, e: Instant, index: int)
    requires index < |e.chain.ids| && e.peer !in s.activeMembers && !Scan(s, e, index).1
    ensures e.peer !in Scan(s, e, index).0.activeMembers
    decreases index + 1
  {
    if index >= 0 {
      if !ReachesMembers(s, e, index) {
        UnreachedMembers(s, e, index);
      }
      hide Visit, ReachesMembers;
      ScanMissed(Visit(s, e, index), e, index - 1);
    }
  }

  lemma UnreachedMembers(s: Caches, e: Instant, index: int)
    requires 0 <= index < |e.chain.ids| && !ReachesMembers(s, e, index)
    ensures Visit(s, e, index).activeMembers == s.activeMembers
  {
  }

  /**
   Within the period, the validation of any peer keeps the refusal, and makes the refused peer a member
   just when it brings it in.
   */
  lemma RefusalOutlives(s: Caches, e: Instant, peer: string, time: int)
    requires Remembers(s, peer, time) && InPeriod(e.now, time)
    ensures var s' := ValidateResult(s, e).0;
            Remembers(s', peer, time)
            && (peer in s'.activeMembers <==> peer in s.activeMembers || BringsIn(s, e, peer))
  {
    hide Scan, ScanReaches, AuthorizationResult;
    var swept, last := Searched(s, e), |e.chain.ids| - 1;
    AuthorizationFrame(s, e);
    ScanFrame(swept, e, last);
    ScanAddsReached(swept, e, last, peer);
  }

  /** What lets a remembered peer in: its stake, or its authorisation and a cached membership. */
  lemma RememberedPeer(s: Caches, later: Instant, time: int)
    requires Remembers(s, later.peer, time) && InPeriod(later.now, time)
    ensures ValidateResult(s, later).1 == Allowed
       <==> || later.peer in later.chain.staked
            || (AuthorizationResult(s, later).1 == Allowed && later.peer in s.activeMembers)
  {
    AuthorizationFrame(s, later);
    hide Scan, SearchResult, AuthorizationResult;
  }

  /** The caches after validations that follow a given state. */
  function AfterAll(s: Caches, h: seq<Instant>): Caches {
    if h == [] then s else ValidateResult(AfterAll(s, h[..|h| - 1]), h[|h| - 1]).0
  }

  predicate AllInPeriod(h: seq<Instant>, time: int) {
    forall i :: 0 <= i < |h| ==> InPeriod(h[i].now, time)
  }

  /** Some validation of the run brings the peer in. */
  ghost predicate BroughtIn(s: Caches, h: seq<Instant>, peer: string) {
    exists i :: 0 <= i < |h| && BringsIn(AfterAll(s, h[..i]), h[i], peer)
  }

  /** With the stake, or authorised and brought in. */
  ghost predicate MayPass(refused: Caches, h: seq<Instant>, later: Instant) {
    || later.peer in later.chain.staked
    || (AuthorizationResult(AfterAll(refused, h), later).1 == Allowed && BroughtIn(refused, h, later.peer))
  }

  lemma {:induction false} AfterRefusal(s: Caches, h: seq<Instant>, peer: string, time: int)
    requires Remembers(s, peer, time) && peer !in s.activeMembers && AllInPeriod(h, time)
    ensures Remembers(AfterAll(s, h), peer, time)
    ensures peer in AfterAll(s, h).activeMembers <==> BroughtIn(s, h, peer)
  {
    hide ValidateResult, Remembers, BringsIn;
    if h != [] {
      var n := |h| - 1;
      var before := h[..n];
      AfterRefusal(s, before, peer, time);
      RefusalOutlives(AfterAll(s, before), h[n], peer, time);
      if BroughtIn(s, before, peer) {
        var i :| 0 <= i < |before| && BringsIn(AfterAll(s, before[..i]), before[i], peer);
        assert before[..i] == h[..i];
      }
      if BroughtIn(s, h, peer) {
        var i :| 0 <= i < |h| && BringsIn(AfterAll(s, h[..i]), h[i], peer);
        if i < n {
          assert before[..i] == h[..i];
        }
      }
    }
  }

  /**
   How long a refusal lasts, from any caches, on any chains, with any failing calls then and later, and
   with any other peers validated in between: within the caching period the refused peer is let in
   exactly with the stake, or when it is authorised and meanwhile the search for some other peer has
   reached an active keep that has it among its members.
   */
  lemma RefusalIsRemembered(s: Caches, e: Instant, h: seq<Instant>, later: Instant)
    requires SearchRefuses(s, e) && AllInPeriod(h, e.now)
    requires later.peer == e.peer && InPeriod(later.now, e.now)
    ensures var refused := ValidateResult(s, e).0;
            ValidateResult(AfterAll(refused, h), later).1 == Allowed <==> MayPass(refused, h, later)
    ensures forall i :: 0 <= i < |h| && BringsIn(AfterAll(ValidateResult(s, e).0, h[..i]), h[i], e.peer) ==>
              h[i].peer != e.peer
  {
    hide ValidateResult, Remembers, SearchRefuses, BringsIn, BroughtIn, AuthorizationResult;
    var refused := ValidateResult(s, e).0;
    RefusalIsCached(s, e);
    AfterRefusal(refused, h, e.peer, e.now);
    RememberedPeer(AfterAll(refused, h), later, e.now);
    forall i | 0 <= i < |h| && BringsIn(AfterAll(refused, h[..i]), h[i], e.peer) ensures h[i].peer != e.peer {
      AfterRefusal(refused, h[..i], e.peer, e.now);
      RefusedPeerIsNotSearched(AfterAll(refused, h[..i]), h[i], e.peer, e.now);
    }
  }

  /** A remembered peer is answered from the caches: its own validations search for nobody. */
  lemma RefusedPeerIsNotSearched(s: Caches, e: Instant, peer: string, time: int)
    requires Remembers(s, peer, time) && InPeriod(e.now, time) && BringsIn(s, e, peer)
    ensures e.peer != peer
  {
    AuthorizationFrame(s, e);
    hide ScanReaches, AuthorizationResult;
  }

  /** While only the refused peer itself comes back, it is let in exactly with the stake. */
  lemma RefusalIsRememberedAlone(s: Caches, e: Instant, h: seq<Instant>, later: Instant)
    requires SearchRefuses(s, e) && AllInPeriod(h, e.now)
    requires forall i :: 0 <= i < |h| ==> h[i].peer == e.peer
    requires later.peer == e.peer && InPeriod(later.now, e.now)
    ensures ValidateResult(AfterAll(ValidateResult(s, e).0, h), later).1 == Allowed
       <==> later.peer in later.chain.staked
  {
    hide ValidateResult, SearchRefuses, BringsIn, AuthorizationResult;
    RefusalIsRemembered(s, e, h, later);
  }

  /**
   When a failing call is to blame: an authorised member of some active keep, whose active keeps all
   have a failing call in the scan, is refused although the policy without failures lets it in. Within
   the period only its stake, or the search for another peer, can then let it in, even if every later
   call succeeds.
   */
  lemma FailureIsRemembered(e: Instant, h: seq<Instant>, later: Instant)
    requires e.chain.Valid() && e.peer !in e.chain.staked && e.peer in e.chain.authorized
    requires e.chain.InActiveKeep(e.peer) && !e.faults.authorization && !e.faults.count
    requires !exists i :: VisibleMember(e, i)
    requires AllInPeriod(h, e.now) && later.peer == e.peer && InPeriod(later.now, e.now)
    ensures ValidateResult(EMPTY_CACHES, e.(faults := NO_FAULTS)).1 == Allowed
    ensures ValidateResult(EMPTY_CACHES, e).1 == NoStakeNoActiveKeep
    ensures var refused := ValidateResult(EMPTY_CACHES, e).0;
            ValidateResult(AfterAll(refused, h), later).1 == Allowed <==> MayPass(refused, h, later)
  {
    hide ValidateResult, MayPass, AfterAll;
    var healthy := e.(faults := NO_FAULTS);
    assert healthy.chain.InActiveKeep(healthy.peer);
    UncachedPolicy(healthy);
    FirstVerdict(e);
    FirstRefusal(e);
    RefusalIsRemembered(EMPTY_CACHES, e, h, later);
  }

  lemma FirstRefusal(e: Instant)
    requires e.peer !in e.chain.staked && e.peer in e.chain.authorized
    requires !e.faults.authorization && !e.faults.count && ValidateResult(EMPTY_CACHES, e).1 != Allowed
    ensures SearchRefuses(EMPTY_CACHES, e) && ValidateResult(EMPTY_CACHES, e).1 == NoStakeNoActiveKeep
  {
    hide Scan;
  }

  // ---- The smallest instances ----

  function OneKeep(members: seq<string>): Chain {
    Chain(["keep"], map["keep" := members], {"keep"}, {"peer", "other"}, {})
  }

  const UNREADABLE := NO_FAULTS.(activity := {"keep"})

  /** The peer's only keep is unreadable once: the peer is refused although the chain answers again. */
  lemma OneKeepIsForgotten(now: int, later: int)
    requires InPeriod(later, now)
    ensures var failing := Instant(OneKeep(["peer"]), UNREADABLE, "peer", now);
            var healthy := Instant(OneKeep(["peer"]), NO_FAULTS, "peer", later);
            && OneKeep(["peer"]).Valid() && OneKeep(["peer"]).InActiveKeep("peer")
            && ValidateResult(ValidateResult(EMPTY_CACHES, failing).0, healthy).1 != Allowed
  {
    var failing := Instant(OneKeep(["peer"]), UNREADABLE, "peer", now);
    var healthy := Instant(OneKeep(["peer"]), NO_FAULTS, "peer", later);
    assert OneKeep(["peer"]).ids[0] == "keep";
    assert OneKeep(["peer"]).Listed("keep");
    hide ValidateResult;
    FailureIsRemembered(failing, [], healthy);
  }

  /** The other member of that keep is validated in between: its search lets the refused peer in again. */
  lemma OtherPeerRescues(now: int)
    ensures var failing := Instant(OneKeep(["peer", "other"]), UNREADABLE, "peer", now);
            var other := Instant(OneKeep(["peer", "other"]), NO_FAULTS, "other", now + 1);
            var later := Instant(OneKeep(["peer", "other"]), NO_FAULTS, "peer", now + 2);
            && ValidateResult(EMPTY_CACHES, failing).1 == NoStakeNoActiveKeep
            && ValidateResult(AfterAll(ValidateResult(EMPTY_CACHES, failing).0, [other]), later).1 == Allowed
  {
    var keep := OneKeep(["peer", "other"]);
    var failing := Instant(keep, UNREADABLE, "peer", now);
    var other := Instant(keep, NO_FAULTS, "other", now + 1);
    var later := Instant(keep, NO_FAULTS, "peer", now + 2);
    hide ValidateResult, BringsIn, AuthorizationResult, VisibleMember, BroughtIn;
    RescueScene(failing);
    var refused := ValidateResult(EMPTY_CACHES, failing).0;
    RescueAuthorized(refused, other, later, now);
    RescueBringsIn(refused, other, now);
    OneStepBringsIn(refused, other, "peer");
    FailureIsRemembered(failing, [other], later);
  }

  lemma OneStepBringsIn(s: Caches, e: Instant, peer: string)
    requires BringsIn(s, e, peer)
    ensures BroughtIn(s, [e], peer)
  {
    hide BringsIn;
    assert AfterAll(s, [e][..0]) == s;
  }

  lemma RescueScene(e: Instant)
    requires e.chain == OneKeep(["peer", "other"]) && e.faults == UNREADABLE && e.peer == "peer"
    ensures e.chain.Valid() && e.chain.InActiveKeep(e.peer) && !exists i :: VisibleMember(e, i)
  {
    assert e.chain.ids[0] == "keep" && e.chain.Listed("keep");
    assert e.chain.members["keep"][0] == "peer";
  }

  lemma RescueBringsIn(s: Caches, other: Instant, now: int)
    requires s == ValidateResult(EMPTY_CACHES, Instant(OneKeep(["peer", "other"]), UNREADABLE, "peer", now)).0
    requires other == Instant(OneKeep(["peer", "other"]), NO_FAULTS, "other", now + 1)
    ensures BringsIn(s, other, "peer")
  {
  }

  lemma RescueAuthorized(s: Caches, other: Instant, later: Instant, now: int)
    requires s == ValidateResult(EMPTY_CACHES, Instant(OneKeep(["peer", "other"]), UNREADABLE, "peer", now)).0
    requires other == Instant(OneKeep(["peer", "other"]), NO_FAULTS, "other", now + 1)
    requires later == Instant(OneKeep(["peer", "other"]), NO_FAULTS, "peer", now + 2)
    ensures AuthorizationResult(AfterAll(s, [other]), later).1 == Allowed
  {
    hide Scan;
    var last := |other.chain.ids| - 1;
    assert [other][..0] == [];
    assert AfterAll(s, [other]) == ValidateResult(s, other).0;
    ScanFrame(Searched(EMPTY_CACHES, Instant(other.chain, UNREADABLE, "peer", now)),
              Instant(other.chain, UNREADABLE, "peer", now), last);
    ScanFrame(Searched(s, other), other, last);
  }

  // ---- How old a refusal can be ----

  ghost predicate Healthy(h: seq<Instant>) {
    forall i :: 0 <= i < |h| ==> h[i].faults == NO_FAULTS
  }

  ghost predicate OutsiderBacked(entries: map<string, int>, h: seq<Instant>) {
    forall m :: m in entries ==> OutsiderAt(h, m, entries[m], entries[m])
  }

  ghost predicate UnauthorizedBacked(entries: map<string, int>, h: seq<Instant>) {
    forall m :: m in entries ==> UnauthorizedAt(h, m, entries[m], entries[m])
  }

  ghost predicate NegativeBacked(s: Caches, h: seq<Instant>) {
    OutsiderBacked(s.noActiveMembers, h) && UnauthorizedBacked(s.nonAuthorized, h)
  }

  lemma VisitKeepMissesNone(s: Caches, e: Instant, id: string)
    requires Truthful(s, e.chain) && e.faults == NO_FAULTS && id in e.chain.members && id in e.chain.active
    ensures ActivityResult(s, e, id).1 == Some(true)
    ensures e.peer in e.chain.members[id] ==> e.peer in VisitKeep(s, e, id).activeMembers
  {
    var (s2, active) := ActivityResult(s, e, id);
    assert active == Some(true);
    ActivityTruth(s, e, id);
    assert MembersResult(s2, e, id).1 == e.chain.members[id];
  }

  lemma VisitMissesNone(s: Caches, e: Instant, index: int)
    requires Truthful(s, e.chain) && e.faults == NO_FAULTS && e.chain.Valid() && 0 <= index < |e.chain.ids|
    requires var id := e.chain.ids[index];
             id in e.chain.active && id in e.chain.members && e.peer in e.chain.members[id]
    ensures ReachesMembers(s, e, index) && e.peer in Visit(s, e, index).activeMembers
  {
    hide VisitKeep, ActivityResult;
    var (s1, keep) := IndexResult(s, e, index);
    assert keep == Some(e.chain.ids[index]);
    IndexTruth(s, e, index);
    VisitKeepMissesNone(s1, e, keep.value);
  }

  lemma {:induction false} ScanMissesNone(s: Caches, e: Instant, index: int)
    requires Truthful(s, e.chain) && e.faults == NO_FAULTS && e.chain.Valid() && index < |e.chain.ids|
    requires !Scan(s, e, index).1
    ensures forall i :: 0 <= i <= index && e.chain.ids[i] in e.chain.active && e.chain.ids[i] in e.chain.members ==>
              e.peer !in e.chain.members[e.chain.ids[i]]
    decreases index + 1
  {
    hide Visit, ReachesMembers, Truthful;
    if index >= 0 {
      var id := e.chain.ids[index];
      if id in e.chain.active && id in e.chain.members && e.peer in e.chain.members[id] {
        VisitMissesNone(s, e, index);
        assert false;
      }
      VisitKeepsTruth(s, e, index);
      ScanMissesNone(Visit(s, e, index), e, index - 1);
    }
  }

  lemma FailedSearchMeansOutsider(s: Caches, e: Instant)
    requires Truthful(s, e.chain) && e.faults == NO_FAULTS && e.chain.Valid()
    requires SearchResult(s, e).1 != Allowed
    ensures !e.chain.InActiveKeep(e.peer)
  {
    hide Scan, Truthful;
    ScanMissesNone(s, e, |e.chain.ids| - 1);
    forall id | id in e.chain.active && id in e.chain.members ensures e.peer !in e.chain.members[id] {
      assert e.chain.Listed(id);
    }
  }

  lemma SearchNegative(s: Caches, h: seq<Instant>)
    requires Sound(s, h) && h[|h| - 1].faults == NO_FAULTS && OutsiderBacked(s.noActiveMembers, h)
    ensures OutsiderBacked(SearchResult(s, h[|h| - 1]).0.noActiveMembers, h)
  {
    hide Scan, Truthful, PositiveBacked, Precedes;
    var e := h[|h| - 1];
    ScanFrame(s, e, |e.chain.ids| - 1);
    if SearchResult(s, e).1 != Allowed {
      FailedSearchMeansOutsider(s, e);
      assert OutsiderAt(h, e.peer, e.now, e.now);
    }
  }

  lemma MembershipNegative(s: Caches, h: seq<Instant>)
    requires Sound(s, h) && h[|h| - 1].faults == NO_FAULTS && OutsiderBacked(s.noActiveMembers, h)
    ensures OutsiderBacked(MembershipResult(s, h[|h| - 1]).0.noActiveMembers, h)
  {
    hide Truthful, OutsiderAt, Precedes, SearchResult, ActiveBacked, MembersBacked;
    var e := h[|h| - 1];
    SweepTruth(s, e.chain, e.now);
    SweepBacking(s, h, e.now);
    assert OutsiderBacked(SweptMembers(s, e.now).noActiveMembers, h);
    SearchNegative(SweptMembers(s, e.now), h);
  }

  lemma MembershipKeepsAuthorizations(s: Caches, e: Instant)
    ensures MembershipResult(s, e).0.nonAuthorized == s.nonAuthorized
  {
    hide Scan;
    ScanFrame(SweptMembers(s, e.now), e, |e.chain.ids| - 1);
  }

  lemma AuthorizationNegative(s: Caches, h: seq<Instant>)
    requires h != [] && UnauthorizedBacked(s.nonAuthorized, h)
    ensures UnauthorizedBacked(AuthorizationResult(s, h[|h| - 1]).0.nonAuthorized, h)
  {
    var e := h[|h| - 1];
    if e.peer !in e.chain.authorized {
      assert UnauthorizedAt(h, e.peer, e.now, e.now);
    }
  }

  lemma ValidateNegative(s: Caches, h: seq<Instant>)
    requires Sound(s, h) && h[|h| - 1].faults == NO_FAULTS && NegativeBacked(s, h)
    ensures NegativeBacked(ValidateResult(s, h[|h| - 1]).0, h)
  {
    hide Truthful, Precedes, OutsiderBacked, UnauthorizedBacked, MembershipResult, AuthorizationResult, ActiveBacked,
      MembersBacked;
    var e := h[|h| - 1];
    var s1 := AuthorizationResult(s, e).0;
    AuthorizationFrame(s, e);
    AuthorizationTruth(s, e);
    AuthorizationNegative(s, h);
    MembershipNegative(s1, h);
    MembershipKeepsAuthorizations(s1, e);
  }

  lemma NegativeGrows(s: Caches, h: seq<Instant>, g: seq<Instant>)
    requires h <= g && NegativeBacked(s, h)
    ensures NegativeBacked(s, g)
  {
    forall m | m in s.noActiveMembers ensures OutsiderAt(g, m, s.noActiveMembers[m], s.noActiveMembers[m]) {
      var t := s.noActiveMembers[m];
      var i :| 0 <= i < |h| && t <= h[i].now <= t && !h[i].chain.InActiveKeep(m);
      assert g[i] == h[i];
    }
    forall m | m in s.nonAuthorized ensures UnauthorizedAt(g, m, s.nonAuthorized[m], s.nonAuthorized[m]) {
      var t := s.nonAuthorized[m];
      var i :| 0 <= i < |h| && t <= h[i].now <= t && m !in h[i].chain.authorized;
      assert g[i] == h[i];
    }
  }

  lemma {:induction false} AfterNegative(h: seq<Instant>)
    requires History(h) && Healthy(h)
    ensures NegativeBacked(After(h), h)
    decreases |h|
  {
    hide Truthful, Precedes, ValidateResult, NegativeBacked, PositiveBacked, TimesPast;
    if h != [] {
      var last := |h| - 1;
      AfterNegative(h[..last]);
      NegativeGrows(After(h[..last]), h[..last], h);
      StateBefore(h, last);
      assert h[..last + 1] == h;
      ValidateNegative(After(h[..last]), h);
    } else {
      EmptyNegative();
    }
  }

  lemma EmptyNegative()
    ensures NegativeBacked(EMPTY_CACHES, [])
  {
  }

  /**
   Staleness of a refusal, when no chain call ever fails: the peer was not authorised at some instant
   of the last authorization period, or at some instant of the last membership period no active keep
   had it as a member.
   */
  lemma RefusalStaleness(h: seq<Instant>, j: nat)
    requires History(h) && Healthy(h) && j < |h| && VerdictAt(h, j) != Allowed
    ensures h[j].peer !in h[j].chain.staked
    ensures || UnauthorizedAt(h[..j + 1], h[j].peer, h[j].now - AUTHORIZATION_CACHE_PERIOD, h[j].now)
            || OutsiderAt(h[..j + 1], h[j].peer, h[j].now - ACTIVE_KEEP_MEMBER_CACHE_PERIOD, h[j].now)
  {
    hide Truthful, Precedes, PositiveBacked, NegativeBacked, TimesPast;
    hide AuthorizationResult, MembershipResult, After, History;
    var e, before, g := h[j], After(h[..j]), h[..j + 1];
    StateBefore(h, j);
    assert Healthy(g);
    PrefixNegative(h, j);
    var (s1, authorization) := AuthorizationResult(before, e);
    if authorization != Allowed {
      RefusedAuthorization(before, g);
    } else {
      AuthorizationFrame(before, e);
      AuthorizationTruth(before, e);
      FrameFacts(before, s1, g);
      RefusedMembership(s1, g);
    }
  }

  lemma PrefixNegative(h: seq<Instant>, j: nat)
    requires History(h) && Healthy(h) && j < |h|
    ensures NegativeBacked(After(h[..j]), h[..j + 1])
  {
    hide NegativeBacked, ValidateResult, Precedes;
    assert History(h[..j]);
    AfterNegative(h[..j]);
    NegativeGrows(After(h[..j]), h[..j], h[..j + 1]);
  }

  lemma FrameFacts(before: Caches, s1: Caches, g: seq<Instant>)
    requires g != [] && PositiveBacked(before, g) && NegativeBacked(before, g) && TimesPast(before, g[|g| - 1].now)
    requires s1.isActive == before.isActive && s1.activeMembers == before.activeMembers
    requires s1.noActiveMembers == before.noActiveMembers
    ensures PositiveBacked(s1, g) && OutsiderBacked(s1.noActiveMembers, g) && Past(s1.noActiveMembers, g[|g| - 1].now)
  {
  }

  lemma RefusedAuthorization(s: Caches, h: seq<Instant>)
    requires h != [] && h[|h| - 1].faults == NO_FAULTS
    requires NegativeBacked(s, h) && TimesPast(s, h[|h| - 1].now)
    requires AuthorizationResult(s, h[|h| - 1]).1 != Allowed
    ensures var e := h[|h| - 1]; UnauthorizedAt(h, e.peer, e.now - AUTHORIZATION_CACHE_PERIOD, e.now)
  {
    hide OutsiderBacked;
    var e := h[|h| - 1];
    var refused := Swept(s.nonAuthorized, AUTHORIZATION_CACHE_PERIOD, e.now);
    if e.peer in refused {
      var t := s.nonAuthorized[e.peer];
      var i :| 0 <= i < |h| && t <= h[i].now <= t && e.peer !in h[i].chain.authorized;
    } else {
      assert h[|h| - 1].now == e.now;
    }
  }

  lemma RefusedMembership(s: Caches, h: seq<Instant>)
    requires Sound(s, h) && h[|h| - 1].faults == NO_FAULTS
    requires OutsiderBacked(s.noActiveMembers, h) && Past(s.noActiveMembers, h[|h| - 1].now)
    requires MembershipResult(s, h[|h| - 1]).1 != Allowed
    ensures var e := h[|h| - 1]; OutsiderAt(h, e.peer, e.now - ACTIVE_KEEP_MEMBER_CACHE_PERIOD, e.now)
  {
    hide Truthful, Precedes, ActiveBacked, MembersBacked, SearchResult;
    var e := h[|h| - 1];
    var swept := SweptMembers(s, e.now);
    if e.peer in swept.noActiveMembers {
      var t := s.noActiveMembers[e.peer];
      var i :| 0 <= i < |h| && t <= h[i].now <= t && !h[i].chain.InActiveKeep(e.peer);
    } else {
      SweepTruth(s, e.chain, e.now);
      FailedSearchMeansOutsider(swept, e);
    }
  }
}
