/** A member is never stuck in a session: once the others have sent their messages, it can finish each phase. */
module SessionProgress {
  import opened Wrappers
  import opened GroupProtocol
  import opened Barrier

  /** A run that continues another state: only this member changes. */
  ghost predicate Continues(setup: Setup, s: Session, run: seq<Session>, steps: seq<Step>, p: MemberID) {
    && IsRun(setup, run, steps) && run[0] == s && p in s.members && p in run[|steps|].members
    && run[|steps|] == s.(members := s.members[p := run[|steps|].members[p]])
  }

  lemma PrependStep(setup: Setup, s: Session, step: Step, run: seq<Session>, steps: seq<Step>, p: MemberID)
    requires Enabled(setup, s, step) && p in s.members
    requires p in Apply(setup, s, step).members && Continues(setup, Apply(setup, s, step), run, steps, p)
    requires Apply(setup, s, step) == s.(members := s.members[p := Apply(setup, s, step).members[p]])
    ensures Continues(setup, s, [s] + run, [step] + steps, p)
  {
    var run', steps' := [s] + run, [step] + steps;
    forall i | 0 <= i < |steps'|
      ensures Enabled(setup, run'[i], steps'[i]) && run'[i + 1] == Apply(setup, run'[i], steps'[i])
    {
      if i > 0 {
        assert run'[i] == run[i - 1] && run'[i + 1] == run[i] && steps'[i] == steps[i - 1];
      }
    }
  }

  // ---- The announcement ----

  lemma {:induction false} IterationExists<V>(m: map<string, V>) returns (order: seq<string>)
    ensures Iterates(order, m)
    decreases m.Keys
  {
    order := [];
    if k :| k in m {
      var rest := m - {k};
      assert rest.Keys == m.Keys - {k};
      var before := IterationExists(rest);
      order := [k] + before;
    }
  }

  /** Every keep member's announcement is on its way, under a lower-cased name of its own. */
  ghost predicate AllAnnounce(setup: Setup, announces: set<MemberID>) {
    && |Lowered(setup.keepMembers)| == |setup.keepMembers|
    && forall id :: id in setup.keepMembers ==> exists m :: m in announces && setup.directory.operatorID(m) == Some(id)
  }

  ghost predicate CollectsAnnouncements(setup: Setup, s: Session, p: MemberID) {
    && p in s.members && s.members[p].phase == Announcing && Announcements(setup, s.members[p].received)
    && |s.members[p].received| < |setup.keepMembers|
  }

  lemma MissingKeepMember(setup: Setup, announces: set<MemberID>, received: map<string, MemberID>) returns (m: MemberID)
    requires AllAnnounce(setup, announces) && Announcements(setup, received) && |received| < |setup.keepMembers|
    ensures m in announces && setup.directory.operatorID(m).Some?
    ensures setup.directory.operatorID(m).value in setup.keepMembers
    ensures ToLower(setup.directory.operatorID(m).value) !in received
  {
    assert |received.Keys| == |received|;
    LoweredFacts(setup.keepMembers);
    if Lowered(setup.keepMembers) <= received.Keys {
      SubsetSize(Lowered(setup.keepMembers), received.Keys);
      assert false;
    }
    var k :| k in Lowered(setup.keepMembers) && k !in received;
    var id :| id in setup.keepMembers && ToLower(id) == k;
    m :| m in announces && setup.directory.operatorID(m) == Some(id);
  }

  /** Receiving a missing announcement makes the map one larger. */
  lemma ReceiveMissing(setup: Setup, s: Session, p: MemberID) returns (step: Step)
    requires CollectsAnnouncements(setup, s, p) && AllAnnounce(setup, s.announces)
    ensures Enabled(setup, s, step)
    ensures var s' := Apply(setup, s, step);
            && p in s'.members && s' == s.(members := s.members[p := s'.members[p]])
            && |s'.members[p].received| == |s.members[p].received| + 1
            && (if |s'.members[p].received| == |setup.keepMembers| then s'.members[p].phase == Announced
                else CollectsAnnouncements(setup, s', p))
  {
    var received := s.members[p].received;
    var m := MissingKeepMember(setup, s.announces, received);
    var k := ToLower(setup.directory.operatorID(m).value);
    var more := received[k := m];
    assert more == AnnounceAfter(received, setup.directory, m) && more.Keys == received.Keys + {k};
    assert |more.Keys| == |received.Keys| + 1 && |more.Keys| == |more| && |received.Keys| == |received|;
    var order := IterationExists(more);
    step := ReceiveAnnounce(p, m, order);
  }

  /** While announcements are missing, the missing ones can be received, and then the member has announced. */
  lemma {:induction false} AnnouncementCanFinish(setup: Setup, s: Session, p: MemberID)
    returns (run: seq<Session>, steps: seq<Step>)
    requires CollectsAnnouncements(setup, s, p) && AllAnnounce(setup, s.announces)
    ensures Continues(setup, s, run, steps, p) && run[|steps|].members[p].phase == Announced
    decreases |setup.keepMembers| - |s.members[p].received|
  {
    var step := ReceiveMissing(setup, s, p);
    var next := Apply(setup, s, step);
    hide Enabled, Apply;
    if next.members[p].phase == Announced {
      run, steps := [next], [];
    } else {
      run, steps := AnnouncementCanFinish(setup, next, p);
    }
    PrependStep(setup, s, step, run, steps, p);
    run, steps := [s] + run, [step] + steps;
  }

  // ---- Readiness ----

  ghost function Addresses(d: Directory, group: seq<MemberID>): set<string> {
    set i | 0 <= i < |group| && d.address(group[i]).Some? :: d.address(group[i]).value
  }

  /** The first `n` members of the group are recorded as ready, and nobody from outside is. */
  ghost predicate ReadyUpTo(d: Directory, member: Member, n: nat) {
    && n <= |member.group| && OwnAddresses(d, member.group)
    && member.ready.Keys <= Addresses(d, member.group)
    && forall i :: 0 <= i < n ==> d.address(member.group[i]).Some? && d.address(member.group[i]).value in member.ready
  }

  lemma AllReady(d: Directory, member: Member)
    requires ReadyUpTo(d, member, |member.group|)
    ensures |member.ready| == |member.group|
  {
    var group := member.group;
    var s := seq(|group|, i requires 0 <= i < |group| && d.address(group[i]).Some? => d.address(group[i]).value);
    forall i, j | 0 <= i < j < |s| ensures s[i] != s[j] {
      assert d.address(group[i]) != d.address(group[j]);
    }
    DistinctLength(s);
    forall a | a in Addresses(d, group) ensures a in Elements(s) {
      var i :| 0 <= i < |group| && d.address(group[i]).Some? && d.address(group[i]).value == a;
      assert s[i] == a;
    }
    forall i | 0 <= i < |s| ensures s[i] in member.ready {
      assert d.address(group[i]).Some?;
    }
    assert member.ready.Keys == Elements(s);
    assert |member.ready.Keys| == |member.ready|;
  }

  lemma ReceiveNext(setup: Setup, s: Session, p: MemberID, n: nat)
    requires p in s.members && s.members[p].phase == Connected
    requires n < |s.members[p].group| && s.members[p].group[n] in s.readies
    requires ReadyUpTo(setup.directory, s.members[p], n)
    ensures var step := ReceiveReady(p, s.members[p].group[n]);
            && Enabled(setup, s, step)
            && var s' := Apply(setup, s, step);
            && p in s'.members && s' == s.(members := s.members[p := s'.members[p]])
            && s'.members[p].group == s.members[p].group
            && ReadyUpTo(setup.directory, s'.members[p], n + 1)
            && s'.members[p].phase == if |s'.members[p].ready| == |s.members[p].group| then Started else Connected
  {
    var group, m := s.members[p].group, s.members[p].group[n];
    var address := setup.directory.address(m).value;
    assert m in group && address in Addresses(setup.directory, group);
    assert ReadyAfter(s.members[p].ready, setup.directory, group, m) == s.members[p].ready[address := true];
  }

  /** Once all the group members have signalled, their signals can be received, and then the member starts. */
  lemma {:induction false} MemberCanStart(setup: Setup, s: Session, p: MemberID, n: nat)
    returns (run: seq<Session>, steps: seq<Step>)
    requires p in s.members && s.members[p].phase == Connected
    requires n < |s.members[p].group| && ReadyUpTo(setup.directory, s.members[p], n)
    requires forall m :: m in s.members[p].group ==> m in s.readies
    ensures Continues(setup, s, run, steps, p) && run[|steps|].members[p].phase == Started
    decreases |s.members[p].group| - n
  {
    ReceiveNext(setup, s, p, n);
    var step := ReceiveReady(p, s.members[p].group[n]);
    var next := Apply(setup, s, step);
    hide Enabled, Apply, ReadyUpTo;
    if n + 1 == |s.members[p].group| {
      AllReady(setup.directory, next.members[p]);
    }
    if next.members[p].phase == Started {
      run, steps := [next], [];
    } else {
      run, steps := MemberCanStart(setup, next, p, n + 1);
    }
    PrependStep(setup, s, step, run, steps, p);
    run, steps := [s] + run, [step] + steps;
  }
}
