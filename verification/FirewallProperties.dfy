/** What the firewall's caches are worth over whole runs: truth, staleness, and the uncached policy. */
module FirewallProperties {
  import opened Wrappers
  import opened TimeCaches
  import opened Firewall

  const P := ACTIVE_KEEP_MEMBER_CACHE_PERIOD

  // ---- The caches never contradict the chain ----

  /**
   How the chain moves on: keeps are only added, an index and the members of a keep never change, an
   inactive keep stays inactive, an authorization is never revoked. Stakes move freely.
   */
  ghost predicate Evolves(c: Chain, d: Chain) {
    && c.ids <= d.ids
    && (forall id :: id in c.members ==> id in d.members && d.members[id] == c.members[id])
    && (forall id :: id in c.members && id in d.active ==> id in c.active)
    && c.authorized <= d.authorized
  }

  ghost predicate Truthful(s: Caches, c: Chain) {
    && (forall i :: i in s.indexToID ==> 0 <= i < |c.ids| && s.indexToID[i] == c.ids[i])
    && (forall id :: id in s.members ==> id in c.members && s.members[id] == c.members[id])
    && (forall id :: id in s.isInactive ==> id in c.members && id !in c.active)
    && (forall id :: id in s.isActive ==> id in c.members && id !in s.isInactive)
    && (forall p :: p in s.authorized ==> p in c.authorized)
  }

  lemma EvolutionKeepsTruth(s: Caches, c: Chain, d: Chain)
    requires Truthful(s, c) && Evolves(c, d)
    ensures Truthful(s, d)
  {
  }

  lemma IndexTruth(s: Caches, e: Instant, index: int)
    requires e.chain.Valid() && Truthful(s, e.chain) && 0 <= index < |e.chain.ids|
    ensures var (s', found) := IndexResult(s, e, index);
            Truthful(s', e.chain) && (found.Some? ==> found.value == e.chain.ids[index])
  {
  }

  lemma SweepTruth(s: Caches, c: Chain, now: int)
    requires Truthful(s, c)
    ensures Truthful(s.(isActive := Swept(s.isActive, P, now)), c)
    ensures Truthful(SweptMembers(s, now), c)
  {
  }

  lemma MarkActiveTruth(s: Caches, c: Chain, id: string, now: int)
    requires Truthful(s, c) && id in c.members && id !in s.isInactive
    ensures Truthful(s.(isActive := Added(s.isActive, id, now)), c)
  {
  }

  lemma MarkInactiveTruth(s: Caches, c: Chain, id: string)
    requires Truthful(s, c) && id in c.members && id !in s.isActive && id !in c.active
    ensures Truthful(s.(isInactive := s.isInactive + {id}), c)
  {
  }

  lemma ActivityTruth(s: Caches, e: Instant, id: string)
    requires Truthful(s, e.chain) && id in e.chain.members
    ensures Truthful(ActivityResult(s, e, id).0, e.chain)
  {
    if id !in s.isInactive {
      SweepTruth(s, e.chain, e.now);
      var swept := s.(isActive := Swept(s.isActive, P, e.now));
      if id !in swept.isActive && id !in e.faults.activity {
        if id in e.chain.active {
          MarkActiveTruth(swept, e.chain, id, e.now);
        } else {
          MarkInactiveTruth(swept, e.chain, id);
        }
      }
    }
  }

  lemma MembersTruth(s: Caches, e: Instant, id: string)
    requires Truthful(s, e.chain) && id in e.chain.members
    ensures var (s', members) := MembersResult(s, e, id);
            Truthful(s', e.chain) && members in {[], e.chain.members[id]}
  {
  }

  lemma VisitKeepsTruth(s: Caches, e: Instant, index: int)
    requires e.chain.Valid() && Truthful(s, e.chain) && 0 <= index < |e.chain.ids|
    ensures Truthful(Visit(s, e, index), e.chain)
  {
    var (s1, found) := IndexResult(s, e, index);
    IndexTruth(s, e, index);
    if found.Some? {
      ActivityTruth(s1, e, found.value);
      MembersTruth(ActivityResult(s1, e, found.value).0, e, found.value);
    }
  }

  lemma {:induction false} ScanKeepsTruth(s: Caches, e: Instant, index: int)
    requires e.chain.Valid() && Truthful(s, e.chain) && index < |e.chain.ids|
    ensures Truthful(Scan(s, e, index).0, e.chain)
    decreases index + 1
  {
    if index >= 0 {
      VisitKeepsTruth(s, e, index);
      ScanKeepsTruth(Visit(s, e, index), e, index - 1);
    }
  }

  /** Only the four keep caches and the authorised operators are bound to the chain. */
  lemma OtherCachesFree(s: Caches, s': Caches, c: Chain)
    requires Truthful(s, c)
    requires s'.indexToID == s.indexToID && s'.members == s.members
    requires s'.isInactive == s.isInactive && s'.isActive == s.isActive
    requires forall p :: p in s'.authorized ==> p in c.authorized
    ensures Truthful(s', c)
  {
  }

  lemma AuthorizationTruth(s: Caches, e: Instant)
    requires Truthful(s, e.chain)
    ensures Truthful(AuthorizationResult(s, e).0, e.chain)
  {
    var (s', verdict) := AuthorizationResult(s, e);
    var kept := Swept(s.authorized, AUTHORIZATION_CACHE_PERIOD, e.now);
    assert s'.authorized == kept || (e.peer in e.chain.authorized && s'.authorized == Added(kept, e.peer, e.now));
    OtherCachesFree(s, s', e.chain);
  }

  lemma ValidateKeepsTruth(s: Caches, e: Instant)
    requires e.chain.Valid() && Truthful(s, e.chain)
    ensures Truthful(ValidateResult(s, e).0, e.chain)
  {
    var s1 := AuthorizationResult(s, e).0;
    AuthorizationTruth(s, e);
    SweepTruth(s1, e.chain, e.now);
    ScanKeepsTruth(SweptMembers(s1, e.now), e, |e.chain.ids| - 1);
  }

  // ---- Histories ----

  /** A run of the policy: the clock never goes back and the chain only evolves. */
  ghost predicate History(h: seq<Instant>) {
    && (forall i :: 0 <= i < |h| ==> h[i].chain.Valid())
    && (forall i, j :: 0 <= i <= j < |h| ==> Precedes(h[i], h[j]))
  }

  ghost predicate Precedes(a: Instant, b: Instant) {
    a.now <= b.now && Evolves(a.chain, b.chain)
  }

  /** The last instant comes after all the others. */
  ghost predicate Culminates(h: seq<Instant>) {
    h != [] && forall i :: 0 <= i < |h| ==> Precedes(h[i], h[|h| - 1])
  }

  /** The caches after the run. */
  function After(h: seq<Instant>): Caches {
    if h == [] then EMPTY_CACHES else ValidateResult(After(h[..|h| - 1]), h[|h| - 1]).0
  }

  function VerdictAt(h: seq<Instant>, j: nat): Verdict
    requires j < |h|
  {
    ValidateResult(After(h[..j]), h[j]).1
  }

  lemma {:induction false} CachesEqualTheChain(h: seq<Instant>)
    requires History(h) && h != []
    ensures Truthful(After(h), h[|h| - 1].chain)
    decreases |h|
  {
    var last := |h| - 1;
    if last > 0 {
      CachesEqualTheChain(h[..last]);
      assert Precedes(h[last - 1], h[last]);
      EvolutionKeepsTruth(After(h[..last]), h[last - 1].chain, h[last].chain);
    }
    ValidateKeepsTruth(After(h[..last]), h[last]);
  }

  // ---- How old an answer can be ----

  /** At some instant of the clock window the chain itself said: this keep is active, this is a member. */
  ghost predicate Reported(h: seq<Instant>, id: string, member: string, from: int, to: int) {
    exists i :: 0 <= i < |h| && from <= h[i].now <= to && id in h[i].chain.active
             && id in h[i].chain.members && member in h[i].chain.members[id]
  }

  ghost predicate MemberReported(h: seq<Instant>, member: string, from: int, to: int) {
    exists id :: Reported(h, id, member, from, to)
  }

  /** The keep was active at the very instant its entry was made. */
  ghost predicate ActiveAt(h: seq<Instant>, id: string, time: int) {
    exists i :: 0 <= i < |h| && h[i].now == time && id in h[i].chain.active && id in h[i].chain.members
  }

  /** At that instant no active keep had the peer as a member. */
  ghost predicate OutsiderAt(h: seq<Instant>, peer: string, from: int, to: int) {
    exists i :: 0 <= i < |h| && from <= h[i].now <= to && !h[i].chain.InActiveKeep(peer)
  }

  ghost predicate UnauthorizedAt(h: seq<Instant>, peer: string, from: int, to: int) {
    exists i :: 0 <= i < |h| && from <= h[i].now <= to && peer !in h[i].chain.authorized
  }

  /** Every entry of the two positive caches goes back to an answer of the chain. */
  ghost predicate PositiveBacked(s: Caches, h: seq<Instant>) {
    ActiveBacked(s.isActive, h) && MembersBacked(s.activeMembers, h)
  }

  ghost predicate ActiveBacked(active: map<string, int>, h: seq<Instant>) {
    forall id :: id in active ==> ActiveAt(h, id, active[id])
  }

  ghost predicate MembersBacked(members: map<string, int>, h: seq<Instant>) {
    forall m :: m in members ==> MemberReported(h, m, members[m] - P, members[m])
  }

  lemma ActivityBacking(s: Caches, h: seq<Instant>, id: string)
    requires h != [] && id in h[|h| - 1].chain.members && ActiveBacked(s.isActive, h)
    ensures var e := h[|h| - 1];
            var (s', active) := ActivityResult(s, e, id);
            && ActiveBacked(s'.isActive, h) && s'.activeMembers == s.activeMembers
            && (active == Some(true) ==> id in s'.isActive && e.now - s'.isActive[id] <= P)
  {
    hide ActiveAt;
    var e := h[|h| - 1];
    if id !in s.isInactive {
      var swept := Swept(s.isActive, P, e.now);
      assert ActiveBacked(swept, h);
      if id !in swept && id !in e.faults.activity && id in e.chain.active {
        ActiveNow(h, id);
        AddedIsBacked(swept, h, id, e.now);
      }
    }
  }

  lemma ActiveNow(h: seq<Instant>, id: string)
    requires h != [] && id in h[|h| - 1].chain.active && id in h[|h| - 1].chain.members
    ensures ActiveAt(h, id, h[|h| - 1].now)
  {
  }

  lemma AddedIsBacked(active: map<string, int>, h: seq<Instant>, id: string, now: int)
    requires ActiveBacked(active, h) && ActiveAt(h, id, now)
    ensures ActiveBacked(Added(active, id, now), h)
  {
    hide ActiveAt;
  }

  /** The members of a keep whose "active" entry is at most one period old are backed for one period. */
  lemma FreshMembersBacked(h: seq<Instant>, id: string, time: int, m: string)
    requires Culminates(h) && ActiveAt(h, id, time)
    requires var e := h[|h| - 1]; e.now - time <= P && id in e.chain.members && m in e.chain.members[id]
    ensures var e := h[|h| - 1]; MemberReported(h, m, e.now - P, e.now)
  {
    var e := h[|h| - 1];
    var i :| 0 <= i < |h| && h[i].now == time && id in h[i].chain.active && id in h[i].chain.members;
    MembersNeverChange(h[i], e, id);
    assert Reported(h, id, m, e.now - P, e.now);
  }

  lemma MembersNeverChange(a: Instant, b: Instant, id: string)
    requires Precedes(a, b) && id in a.chain.members
    ensures a.now <= b.now && id in b.chain.members && b.chain.members[id] == a.chain.members[id]
  {
  }

  lemma KeepMembersBacked(h: seq<Instant>, id: string, active: map<string, int>, members: seq<string>)
    requires Culminates(h) && ActiveBacked(active, h) && id in active
    requires var e := h[|h| - 1];
             e.now - active[id] <= P && id in e.chain.members && members in {[], e.chain.members[id]}
    ensures var e := h[|h| - 1];
            forall m :: m in members ==> MemberReported(h, m, e.now - P, e.now)
  {
    forall m | m in members ensures MemberReported(h, m, h[|h| - 1].now - P, h[|h| - 1].now) {
      FreshMembersBacked(h, id, active[id], m);
    }
  }

  lemma AddedMembersBacked(entries: map<string, int>, items: seq<string>, h: seq<Instant>, now: int)
    requires MembersBacked(entries, h)
    requires forall m :: m in items ==> MemberReported(h, m, now - P, now)
    ensures MembersBacked(AddedAll(entries, items, now), h)
  {
    hide MemberReported;
    var added := AddedAll(entries, items, now);
    forall m | m in added ensures MemberReported(h, m, added[m] - P, added[m]) {
      if m !in entries {
        assert m in items;
      }
    }
  }

  /** The state of a policy whose history ends with the current instant. */
  ghost predicate Sound(s: Caches, h: seq<Instant>) {
    && Culminates(h)
    && h[|h| - 1].chain.Valid()
    && Truthful(s, h[|h| - 1].chain)
    && PositiveBacked(s, h)
  }

  lemma VisitKeepBacking(s: Caches, h: seq<Instant>, id: string)
    requires Sound(s, h) && id in h[|h| - 1].chain.members
    ensures PositiveBacked(VisitKeep(s, h[|h| - 1], id), h)
  {
    hide Truthful, ActiveAt, MemberReported;
    var e := h[|h| - 1];
    var (s2, active) := ActivityResult(s, e, id);
    ActivityBacking(s, h, id);
    if active == Some(true) {
      ActivityTruth(s, e, id);
      MembersTruth(s2, e, id);
      var members := MembersResult(s2, e, id).1;
      KeepMembersBacked(h, id, s2.isActive, members);
      AddedMembersBacked(s2.activeMembers, members, h, e.now);
    }
  }

  lemma VisitBacking(s: Caches, h: seq<Instant>, index: int)
    requires Sound(s, h) && 0 <= index < |h[|h| - 1].chain.ids|
    ensures PositiveBacked(Visit(s, h[|h| - 1], index), h)
  {
    var e := h[|h| - 1];
    var (s1, found) := IndexResult(s, e, index);
    IndexTruth(s, e, index);
    if found.Some? {
      VisitKeepBacking(s1, h, found.value);
    }
  }

  lemma {:induction false} ScanKeepsBacking(s: Caches, h: seq<Instant>, index: int)
    requires Sound(s, h) && index < |h[|h| - 1].chain.ids|
    ensures PositiveBacked(Scan(s, h[|h| - 1], index).0, h)
    decreases index + 1
  {
    var e := h[|h| - 1];
    if index >= 0 {
      VisitBacking(s, h, index);
      VisitKeepsTruth(s, e, index);
      ScanKeepsBacking(Visit(s, e, index), h, index - 1);
    }
  }

  /** A longer history backs whatever a shorter one did. */
  lemma BackingGrows(s: Caches, h: seq<Instant>, g: seq<Instant>)
    requires h <= g && PositiveBacked(s, h)
    ensures PositiveBacked(s, g)
  {
    forall id | id in s.isActive ensures ActiveAt(g, id, s.isActive[id]) {
      var i :| 0 <= i < |h| && h[i].now == s.isActive[id] && id in h[i].chain.active && id in h[i].chain.members;
      assert g[i] == h[i];
    }
    forall m | m in s.activeMembers
      ensures MemberReported(g, m, s.activeMembers[m] - P, s.activeMembers[m])
    {
      var from, to := s.activeMembers[m] - P, s.activeMembers[m];
      var id :| Reported(h, id, m, from, to);
      var i :| 0 <= i < |h| && from <= h[i].now <= to && id in h[i].chain.active
            && id in h[i].chain.members && m in h[i].chain.members[id];
      assert g[i] == h[i];
      assert Reported(g, id, m, from, to);
    }
  }

  lemma AuthorizationFrame(s: Caches, e: Instant)
    ensures var s' := AuthorizationResult(s, e).0;
            s'.isActive == s.isActive && s'.activeMembers == s.activeMembers
            && s'.noActiveMembers == s.noActiveMembers
  {
  }

  lemma SearchBacking(s: Caches, h: seq<Instant>)
    requires Sound(s, h)
    ensures PositiveBacked(SearchResult(s, h[|h| - 1]).0, h)
  {
    ScanKeepsBacking(s, h, |h[|h| - 1].chain.ids| - 1);
  }

  lemma SweepBacking(s: Caches, h: seq<Instant>, now: int)
    requires PositiveBacked(s, h)
    ensures PositiveBacked(SweptMembers(s, now), h)
  {
  }

  lemma MembershipBacking(s: Caches, h: seq<Instant>)
    requires Sound(s, h)
    ensures PositiveBacked(MembershipResult(s, h[|h| - 1]).0, h)
  {
    var e := h[|h| - 1];
    SweepTruth(s, e.chain, e.now);
    SweepBacking(s, h, e.now);
    SearchBacking(SweptMembers(s, e.now), h);
  }

  lemma ValidateKeepsBacking(s: Caches, h: seq<Instant>)
    requires Sound(s, h)
    ensures PositiveBacked(ValidateResult(s, h[|h| - 1]).0, h)
  {
    var e := h[|h| - 1];
    AuthorizationFrame(s, e);
    AuthorizationTruth(s, e);
    MembershipBacking(AuthorizationResult(s, e).0, h);
  }

  lemma {:induction false} AfterBacked(h: seq<Instant>)
    requires History(h)
    ensures PositiveBacked(After(h), h)
    decreases |h|
  {
    if h != [] {
      var last := |h| - 1;
      var before := After(h[..last]);
      AfterBacked(h[..last]);
      BackingGrows(before, h[..last], h);
      if last > 0 {
        CachesEqualTheChain(h[..last]);
        EvolutionKeepsTruth(before, h[last - 1].chain, h[last].chain);
      }
      ValidateKeepsBacking(before, h);
    }
  }

  /** An entry that survives a sweep is at most one period old. */
  lemma MemberWindow(h: seq<Instant>, m: string, time: int, now: int)
    requires MemberReported(h, m, time - P, time) && now - time <= P && time <= now
    ensures MemberReported(h, m, now - 2 * P, now)
  {
    var id :| Reported(h, id, m, time - P, time);
    var i :| 0 <= i < |h| && time - P <= h[i].now <= time && id in h[i].chain.active
          && id in h[i].chain.members && m in h[i].chain.members[id];
    assert Reported(h, id, m, now - 2 * P, now);
  }

  /** No entry carries a time of the future. */
  ghost predicate Past(entries: map<string, int>, now: int) {
    forall k :: k in entries ==> entries[k] <= now
  }

  lemma {:induction false} ScanFrame(s: Caches, e: Instant, index: int)
    requires index < |e.chain.ids|
    ensures var s' := Scan(s, e, index).0;
            && s'.authorized == s.authorized && s'.nonAuthorized == s.nonAuthorized
            && s'.noActiveMembers == s.noActiveMembers
            && (Past(s.activeMembers, e.now) ==> Past(s'.activeMembers, e.now))
            && (Scan(s, e, index).1 ==> e.peer in s'.activeMembers)
    decreases index + 1
  {
    if index >= 0 {
      VisitFrame(s, e, index);
      ScanFrame(Visit(s, e, index), e, index - 1);
    }
  }

  lemma VisitFrame(s: Caches, e: Instant, index: int)
    requires 0 <= index < |e.chain.ids|
    ensures var s' := Visit(s, e, index);
            && s'.authorized == s.authorized && s'.nonAuthorized == s.nonAuthorized
            && s'.noActiveMembers == s.noActiveMembers
            && (Past(s.activeMembers, e.now) ==> Past(s'.activeMembers, e.now))
  {
    var s' := Visit(s, e, index);
    assert s'.activeMembers == s.activeMembers
        || exists items :: s'.activeMembers == AddedAll(s.activeMembers, items, e.now);
  }

  ghost predicate TimesPast(s: Caches, now: int) {
    Past(s.activeMembers, now) && Past(s.noActiveMembers, now) && Past(s.nonAuthorized, now)
  }

  lemma AuthorizationPast(s: Caches, e: Instant)
    requires Past(s.nonAuthorized, e.now)
    ensures Past(AuthorizationResult(s, e).0.nonAuthorized, e.now)
  {
  }

  lemma ValidatePast(s: Caches, e: Instant)
    requires TimesPast(s, e.now)
    ensures TimesPast(ValidateResult(s, e).0, e.now)
  {
    var s1 := AuthorizationResult(s, e).0;
    AuthorizationPast(s, e);
    AuthorizationFrame(s, e);
    var swept := SweptMembers(s1, e.now);
    assert TimesPast(swept, e.now);
    ScanFrame(swept, e, |e.chain.ids| - 1);
  }

  lemma {:induction false} AfterTimesPast(h: seq<Instant>, now: int)
    requires History(h) && (h != [] ==> h[|h| - 1].now <= now)
    ensures TimesPast(After(h), now)
    decreases |h|
  {
    if h != [] {
      var last := |h| - 1;
      assert last > 0 ==> Precedes(h[last - 1], h[last]);
      AfterTimesPast(h[..last], h[last].now);
      ValidatePast(After(h[..last]), h[last]);
    }
  }

  lemma SearchAcceptance(s: Caches, h: seq<Instant>)
    requires Sound(s, h)
    requires var e := h[|h| - 1]; e.peer !in s.activeMembers && SearchResult(s, e).1 == Allowed
    ensures var e := h[|h| - 1]; MemberReported(h, e.peer, e.now - P, e.now)
  {
    hide Truthful, ActiveBacked, MemberReported, Scan, Precedes;
    var e := h[|h| - 1];
    ScanKeepsBacking(s, h, |e.chain.ids| - 1);
    ScanFound(s, e, |e.chain.ids| - 1);
  }

  lemma ScanFound(s: Caches, e: Instant, index: int)
    requires index < |e.chain.ids| && Scan(s, e, index).1 && e.peer !in s.activeMembers
    ensures var s' := Scan(s, e, index).0;
            e.peer in s'.activeMembers && s'.activeMembers[e.peer] == e.now
  {
    ScanFrame(s, e, index);
    ScanAddsNow(s, e, index);
  }

  lemma MembershipAcceptance(s: Caches, h: seq<Instant>)
    requires Sound(s, h) && Past(s.activeMembers, h[|h| - 1].now)
    requires MembershipResult(s, h[|h| - 1]).1 == Allowed
    ensures var e := h[|h| - 1]; MemberReported(h, e.peer, e.now - 2 * P, e.now)
  {
    hide Truthful, ActiveBacked, MemberReported, SearchResult, Precedes;
    var e := h[|h| - 1];
    var swept := SweptMembers(s, e.now);
    if e.peer in swept.activeMembers {
      MemberWindow(h, e.peer, swept.activeMembers[e.peer], e.now);
    } else {
      SweepTruth(s, e.chain, e.now);
      SweepBacking(s, h, e.now);
      SearchAcceptance(swept, h);
      MemberWindow(h, e.peer, e.now, e.now);
    }
  }

  /**
   Staleness of an acceptance: a peer let in without the minimum stake is authorised, and belongs to
   a keep that the chain itself reported active at most two caching periods earlier. The two periods
   add up because an old "active" entry can feed a fresh "member" entry.
   */
  lemma AcceptanceStaleness(h: seq<Instant>, j: nat)
    requires History(h) && j < |h| && VerdictAt(h, j) == Allowed && h[j].peer !in h[j].chain.staked
    ensures h[j].peer in h[j].chain.authorized
    ensures MemberReported(h[..j + 1], h[j].peer, h[j].now - 2 * P, h[j].now)
  {
    hide Truthful, ActiveBacked, MembersBacked, MemberReported;
    hide MembershipResult, AuthorizationResult, Precedes, History, After;
    var before, g := After(h[..j]), h[..j + 1];
    StateBefore(h, j);
    AuthorizationFrame(before, h[j]);
    AuthorizationTruth(before, h[j]);
    AuthorizedWhenAllowed(before, h[j]);
    MembershipAcceptance(AuthorizationResult(before, h[j]).0, g);
  }

  lemma AuthorizedWhenAllowed(s: Caches, e: Instant)
    requires Truthful(s, e.chain) && AuthorizationResult(s, e).1 == Allowed
    ensures e.peer in e.chain.authorized
  {
  }

  /** What is known of the caches when validation j starts. */
  lemma StateBefore(h: seq<Instant>, j: nat)
    requires History(h) && j < |h|
    ensures Culminates(h[..j + 1]) && h[..j + 1][j] == h[j] && h[j].chain.Valid()
    ensures Truthful(After(h[..j]), h[j].chain)
    ensures PositiveBacked(After(h[..j]), h[..j + 1])
    ensures TimesPast(After(h[..j]), h[j].now)
  {
    assert h[..j + 1][..j] == h[..j];
    if j > 0 {
      CachesEqualTheChain(h[..j]);
      assert Precedes(h[j - 1], h[j]);
      EvolutionKeepsTruth(After(h[..j]), h[j - 1].chain, h[j].chain);
    }
    AfterBacked(h[..j]);
    BackingGrows(After(h[..j]), h[..j], h[..j + 1]);
    assert j > 0 ==> Precedes(h[j - 1], h[j]);
    AfterTimesPast(h[..j], h[j].now);
  }

  /** A member the scan itself brings in carries the time of the scan. */
  lemma {:induction false} ScanAddsNow(s: Caches, e: Instant, index: int)
    requires index < |e.chain.ids|
    ensures var s' := Scan(s, e, index).0;
            forall m :: m in s'.activeMembers ==>
              s'.activeMembers[m] == if m in s.activeMembers then s.activeMembers[m] else e.now
    decreases index + 1
  {
    if index >= 0 {
      VisitAddsNow(s, e, index);
      ScanAddsNow(Visit(s, e, index), e, index - 1);
    }
  }

  lemma VisitAddsNow(s: Caches, e: Instant, index: int)
    requires 0 <= index < |e.chain.ids|
    ensures var s' := Visit(s, e, index);
            && (forall m :: m in s.activeMembers ==> m in s'.activeMembers)
            && (forall m :: m in s'.activeMembers ==>
                  s'.activeMembers[m] == if m in s.activeMembers then s.activeMembers[m] else e.now)
  {
  }
}
