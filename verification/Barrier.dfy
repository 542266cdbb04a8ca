/** Agreement of the announcement and the barrier before the protocol starts, over every run. */
module Barrier {
  import opened Wrappers
  import opened GroupProtocol

  // ---- The announcement ----

  /** Every entry is the key of a keep member, filed under that member's operator. */
  ghost predicate Announcements(setup: Setup, received: map<string, MemberID>) {
    forall k :: k in received ==>
      var id := setup.directory.operatorID(received[k]);
      id.Some? && id.value in setup.keepMembers && ToLower(id.value) == k
  }

  /** The group lists the collected keys, each as often as the map holds it. */
  ghost predicate Lists(group: seq<MemberID>, received: map<string, MemberID>) {
    && |group| == |received|
    && (forall m :: m in group ==> exists k :: k in received && received[k] == m)
    && (forall k :: k in received ==> received[k] in group)
  }

  ghost predicate AnnounceInvariant(setup: Setup, s: Session) {
    forall p :: p in s.members ==> MemberAnnounced(setup, s.members[p])
  }

  ghost predicate MemberAnnounced(setup: Setup, member: Member) {
    && Announcements(setup, member.received)
    && (member.phase in {Announced, Connected, Started} ==>
          Lists(member.group, member.received) && |member.received| == |setup.keepMembers|)
  }

  lemma IterationLists(order: seq<string>, received: map<string, MemberID>)
    requires Iterates(order, received)
    ensures var group := seq(|order|, i requires 0 <= i < |order| && order[i] in received => received[order[i]]);
            Lists(group, received)
  {
    var group := seq(|order|, i requires 0 <= i < |order| && order[i] in received => received[order[i]]);
    DistinctLength(order);
    assert Elements(order) == received.Keys;
    forall m | m in group ensures exists k :: k in received && received[k] == m {
      var i :| 0 <= i < |group| && group[i] == m;
      assert order[i] in received;
    }
    forall k | k in received ensures received[k] in group {
      var i :| 0 <= i < |order| && order[i] == k;
      assert group[i] == received[k];
    }
  }

  lemma {:induction false} DistinctLength<T>(s: seq<T>)
    requires forall i, j :: 0 <= i < j < |s| ==> s[i] != s[j]
    ensures |Elements(s)| == |s|
  {
    if s != [] {
      DistinctLength(s[1..]);
      assert s == [s[0]] + s[1..];
      assert Elements(s) == {s[0]} + Elements(s[1..]);
      assert s[0] !in Elements(s[1..]);
    }
  }

  lemma StepKeepsAnnouncements(setup: Setup, s: Session, step: Step)
    requires Enabled(setup, s, step) && AnnounceInvariant(setup, s)
    ensures AnnounceInvariant(setup, Apply(setup, s, step))
  {
    if step.ReceiveAnnounce? {
      var received := AnnounceAfter(s.members[step.p].received, setup.directory, step.m);
      assert Announcements(setup, received);
      IterationLists(step.order, received);
    }
  }

  // ---- Readiness ----

  /** Every collected address is that of a group member that has signalled. */
  ghost predicate MemberReady(d: Directory, readies: set<MemberID>, member: Member) {
    && (forall a :: a in member.ready ==>
          exists m :: m in member.group && m in readies && d.address(m) == Some(a))
    && (member.phase == Started ==> |member.ready| == |member.group|)
  }

  ghost predicate ReadyInvariant(setup: Setup, s: Session) {
    && (forall p :: p in s.members ==> MemberReady(setup.directory, s.readies, s.members[p]))
    && (forall m :: m in s.readies && m in s.members ==> m in s.connected)
    && (forall p :: p in s.members && s.members[p].phase == Announcing ==> s.members[p].ready == map[])
  }

  lemma StepKeepsReadiness(setup: Setup, s: Session, step: Step)
    requires Enabled(setup, s, step) && ReadyInvariant(setup, s)
    ensures ReadyInvariant(setup, Apply(setup, s, step))
  {
    var s' := Apply(setup, s, step);
    forall p | p in s'.members ensures MemberReady(setup.directory, s'.readies, s'.members[p]) {
      assert MemberReady(setup.directory, s.readies, s.members[p]);
      if step.ReceiveReady? && step.p == p {
        OneMoreSignal(setup.directory, s.readies, s.members[p], step.m);
      } else {
        MoreSignals(setup.directory, s.readies, s'.readies, s.members[p]);
      }
    }
  }

  lemma OneMoreSignal(d: Directory, readies: set<MemberID>, member: Member, sender: MemberID)
    requires MemberReady(d, readies, member) && sender in readies
    ensures forall a :: a in ReadyAfter(member.ready, d, member.group, sender) ==>
              exists m :: m in member.group && m in readies && d.address(m) == Some(a)
  {
  }

  lemma MoreSignals(d: Directory, readies: set<MemberID>, more: set<MemberID>, member: Member)
    requires MemberReady(d, readies, member) && readies <= more
    ensures MemberReady(d, more, member)
  {
  }

  /** Once the map is as large as the group, every group member has signalled. */
  lemma FullMapMeansAllSignalled(d: Directory, readies: set<MemberID>, member: Member)
    requires MemberReady(d, readies, member) && |member.ready| == |member.group|
    ensures forall m :: m in member.group ==> m in readies
  {
    var all := Elements(member.group);
    var signalled := set m | m in all && m in readies;
    ElementsAtMostLength(member.group);
    forall a | a in member.ready.Keys ensures exists m :: m in signalled && d.address(m) == Some(a) {
      var m :| m in member.group && m in readies && d.address(m) == Some(a);
      assert m in signalled;
    }
    FewerAddressesThanSenders(member.ready.Keys, signalled, d);
    assert |member.ready.Keys| == |member.ready|;
    SubsetOfSameSize(signalled, all);
    forall m | m in member.group ensures m in readies {
      assert m in all;
    }
  }

  /** Every key of the group has an address, and no two of them the same one. */
  ghost predicate OwnAddresses(d: Directory, group: seq<MemberID>) {
    && (forall i :: 0 <= i < |group| ==> d.address(group[i]).Some?)
    && (forall i, j :: 0 <= i < j < |group| ==> d.address(group[i]) != d.address(group[j]))
  }

  /** The ready map of a group with addresses of their own is full exactly when every member's signal came in. */
  lemma ReadyMapIsFullExactly(d: Directory, group: seq<MemberID>, senders: seq<MemberID>)
    requires OwnAddresses(d, group)
    ensures |ReadyAll(map[], d, group, senders)| == |group| <==> forall m :: m in group ==> m in senders
  {
    var ready := ReadyAll(map[], d, group, senders);
    var signalled := set m | m in group && m in senders;
    DistinctLength(group);
    forall a | a in ready.Keys ensures exists m :: m in signalled && d.address(m) == Some(a) {
      ReadyExactly(d, group, senders, a);
      var i :| 0 <= i < |senders| && Signals(d, group, senders[i], a);
      assert senders[i] in signalled;
    }
    FewerAddressesThanSenders(ready.Keys, signalled, d);
    forall m | m in signalled ensures d.address(m).Some? && d.address(m).value in ready.Keys {
      ReadyExactly(d, group, senders, d.address(m).value);
      var i :| 0 <= i < |senders| && senders[i] == m;
      assert Signals(d, group, senders[i], d.address(m).value);
    }
    AsManyAddresses(d, signalled, ready.Keys);
    assert |ready.Keys| == |ready|;
    if |signalled| == |group| {
      SubsetOfSameSize(signalled, Elements(group));
      forall m | m in group ensures m in senders {
        assert m in Elements(group);
      }
    }
    if forall m :: m in group ==> m in senders {
      assert signalled == Elements(group);
    }
  }

  lemma {:induction false} AsManyAddresses(d: Directory, senders: set<MemberID>, addresses: set<string>)
    requires forall m :: m in senders ==> d.address(m).Some? && d.address(m).value in addresses
    requires forall m, n :: m in senders && n in senders && d.address(m) == d.address(n) ==> m == n
    ensures |senders| <= |addresses|
    decreases senders
  {
    if m :| m in senders {
      AsManyAddresses(d, senders - {m}, addresses - {d.address(m).value});
    }
  }

  // ---- Over whole runs ----

  lemma {:induction false} RunKeepsReadiness(setup: Setup, run: seq<Session>, steps: seq<Step>, i: nat)
    requires IsRun(setup, run, steps) && i < |run|
    requires KeyGenerationStart(run[0]) || SigningStart(run[0])
    ensures ReadyInvariant(setup, run[i]) && run[i].members.Keys == run[0].members.Keys
  {
    if i > 0 {
      RunKeepsReadiness(setup, run, steps, i - 1);
      StepKeepsReadiness(setup, run[i - 1], steps[i - 1]);
    }
  }

  lemma {:induction false} RunKeepsAnnouncements(setup: Setup, run: seq<Session>, steps: seq<Step>, i: nat)
    requires IsRun(setup, run, steps) && i < |run| && KeyGenerationStart(run[0])
    ensures AnnounceInvariant(setup, run[i])
  {
    if i > 0 {
      RunKeepsAnnouncements(setup, run, steps, i - 1);
      StepKeepsAnnouncements(setup, run[i - 1], steps[i - 1]);
    }
  }

  /** A complete announcement holds one key for each keep member, and nothing else. */
  lemma CompleteAnnouncement(setup: Setup, received: map<string, MemberID>)
    requires Announcements(setup, received) && |received| == |setup.keepMembers|
    ensures received.Keys == Lowered(setup.keepMembers)
    ensures |Lowered(setup.keepMembers)| == |setup.keepMembers|
  {
    LoweredFacts(setup.keepMembers);
    assert |received.Keys| == |received|;
    assert received.Keys <= Lowered(setup.keepMembers);
    SubsetOfSameSize(received.Keys, Lowered(setup.keepMembers));
  }

  ghost predicate Announces(s: Session, p: MemberID) {
    p in s.members && s.members[p].phase in {Announced, Connected, Started}
  }

  /** The group has exactly one key for this keep member. */
  ghost predicate OneKeyFor(d: Directory, group: seq<MemberID>, keepMember: string) {
    exists m :: m in group && IsKeyOf(d, m, keepMember)
             && forall n :: n in group && IsKeyOf(d, n, keepMember) ==> n == m
  }

  /**
   Agreement of the announcement: in every run, whoever else announces, any two members that got
   through hold the same keys, one for each member of the keep.
   */
  lemma AnnouncementAgreement(setup: Setup, run: seq<Session>, steps: seq<Step>, i: nat, j: nat, p: MemberID, q: MemberID)
    requires IsRun(setup, run, steps) && i < |run| && j < |run| && KeyGenerationStart(run[0])
    requires OneKeyPerOperator(setup.directory)
    requires Announces(run[i], p) && Announces(run[j], q)
    ensures var g, h := run[i].members[p].group, run[j].members[q].group;
            && |g| == |h| == |setup.keepMembers|
            && Elements(g) == Elements(h) && |Elements(g)| == |g|
            && forall id :: id in setup.keepMembers ==> OneKeyFor(setup.directory, g, id)
  {
    RunKeepsAnnouncements(setup, run, steps, i);
    RunKeepsAnnouncements(setup, run, steps, j);
    var a, b := run[i].members[p], run[j].members[q];
    assert MemberAnnounced(setup, a) && MemberAnnounced(setup, b);
    CompleteAnnouncement(setup, a.received);
    CompleteAnnouncement(setup, b.received);
    SameAnnouncements(setup, a.received, b.received);
    GroupElements(setup, a.group, a.received);
    GroupElements(setup, b.group, b.received);
    forall id | id in setup.keepMembers ensures OneKeyFor(setup.directory, a.group, id) {
      LoweredFacts(setup.keepMembers);
      var m := a.received[ToLower(id)];
      assert m in a.group && IsKeyOf(setup.directory, m, id);
      forall n | n in a.group && IsKeyOf(setup.directory, n, id) ensures n == m {
        assert SameOperator(setup.directory, n, m);
      }
    }
  }

  lemma SameAnnouncements(setup: Setup, a: map<string, MemberID>, b: map<string, MemberID>)
    requires OneKeyPerOperator(setup.directory)
    requires Announcements(setup, a) && Announcements(setup, b) && a.Keys == b.Keys
    ensures a == b
  {
    forall k | k in a ensures a[k] == b[k] {
      assert SameOperator(setup.directory, a[k], b[k]);
    }
  }

  /** The listed keys are the values of the map, each once, because a key has one operator. */
  lemma GroupElements(setup: Setup, group: seq<MemberID>, received: map<string, MemberID>)
    requires Announcements(setup, received) && Lists(group, received)
    ensures Elements(group) == (set k | k in received :: received[k]) && |Elements(group)| == |group|
  {
    var values := set k | k in received :: received[k];
    forall m | m in Elements(group) ensures m in values {
      assert m in group;
    }
    forall m | m in values ensures m in Elements(group) {
      assert m in group;
    }
    ElementsAtMostLength(group);
    KeysAtMostValues(setup, received.Keys, received);
    assert |received.Keys| == |received|;
    assert (set k | k in received.Keys :: received[k]) == values;
  }

  lemma {:induction false} KeysAtMostValues(setup: Setup, keys: set<string>, received: map<string, MemberID>)
    requires keys <= received.Keys && Announcements(setup, received)
    ensures |keys| <= |set k | k in keys :: received[k]|
    decreases keys
  {
    if k :| k in keys {
      KeysAtMostValues(setup, keys - {k}, received);
      var rest := set l | l in keys - {k} :: received[l];
      forall l | l in keys - {k} ensures received[l] != received[k] {
        assert ToLower(setup.directory.operatorID(received[l]).value) == l;
      }
      assert (set l | l in keys :: received[l]) == rest + {received[k]};
    }
  }

  /**
   The barrier: in every run of key generation or signing, a member starts only after every member of
   its group that runs this client has connected its message handlers.
   */
  lemma BarrierHolds(setup: Setup, run: seq<Session>, steps: seq<Step>, i: nat, p: MemberID, m: MemberID)
    requires IsRun(setup, run, steps) && i < |run|
    requires KeyGenerationStart(run[0]) || SigningStart(run[0])
    requires p in run[i].members && run[i].members[p].phase == Started
    requires m in run[i].members[p].group && m in run[0].members
    ensures m in run[i].connected
  {
    RunKeepsReadiness(setup, run, steps, i);
    assert MemberReady(setup.directory, run[i].readies, run[i].members[p]);
    FullMapMeansAllSignalled(setup.directory, run[i].readies, run[i].members[p]);
  }

  /** In key generation the group is the whole keep: a started member waited for every operator of it. */
  lemma BarrierCoversTheKeep(setup: Setup, run: seq<Session>, steps: seq<Step>, i: nat, p: MemberID, q: MemberID)
    requires IsRun(setup, run, steps) && i < |run| && KeyGenerationStart(run[0])
    requires OneKeyPerOperator(setup.directory)
    requires p in run[i].members && run[i].members[p].phase == Started
    requires q in run[0].members && setup.directory.operatorID(q).Some?
    requires setup.directory.operatorID(q).value in setup.keepMembers
    ensures q in run[i].connected
  {
    AnnouncementAgreement(setup, run, steps, i, i, p, p);
    var id := setup.directory.operatorID(q).value;
    var g := run[i].members[p].group;
    assert OneKeyFor(setup.directory, g, id);
    var m :| m in g && IsKeyOf(setup.directory, m, id);
    assert SameOperator(setup.directory, m, q);
    BarrierHolds(setup, run, steps, i, p, q);
  }
}
