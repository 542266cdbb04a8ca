/** Agreement of the recovery round, over every run of the group. */
module RecoveryAgreement {
  import opened Wrappers
  import opened GroupProtocol
  import opened StringOrder
  import opened RecoveryBroadcast
  import Barrier

  /** Every collected pair was sent by a group member that has this address. */
  ghost predicate Sourced(d: Directory, sent: set<Message>, b: Broadcaster) {
    forall a :: a in b.collected ==>
      exists m :: m in b.group && d.address(m) == Some(a) && Message(m, b.collected[a]) in sent
  }

  ghost predicate Read(b: Broadcaster, valid: string -> bool)
    requires b.phase.Finished?
  {
    exists order ::
      Iterates(order, b.collected) && b.phase.verdict == Conclude(Entries(order, b.collected), valid)
  }

  ghost predicate MemberInvariant(net: Net, sent: set<Message>, b: Broadcaster) {
    && Sourced(net.directory, sent, b)
    && (b.phase.Cancelled? ==> |b.collected| == |b.group|)
    && (b.phase.Finished? && b.phase.verdict != Err(TimedOut) ==>
          |b.collected| == |b.group| && Read(b, net.valid))
  }

  ghost predicate Invariant(net: Net, s: Round) {
    forall p :: p in s.members ==> MemberInvariant(net, s.sent, s.members[p])
  }

  lemma MoreSent(d: Directory, sent: set<Message>, more: set<Message>, b: Broadcaster)
    requires sent <= more && Sourced(d, sent, b)
    ensures Sourced(d, more, b)
  {
    forall a | a in b.collected
      ensures exists m :: m in b.group && d.address(m) == Some(a) && Message(m, b.collected[a]) in more
    {
      var m :| m in b.group && d.address(m) == Some(a) && Message(m, b.collected[a]) in sent;
    }
  }

  lemma CollectedIsSourced(d: Directory, sent: set<Message>, b: Broadcaster, msg: Message)
    requires Sourced(d, sent, b) && msg in sent
    ensures Sourced(d, sent, b.(collected := CollectAfter(b.collected, d, b.group, msg)))
  {
    var collected := CollectAfter(b.collected, d, b.group, msg);
    forall a | a in collected
      ensures exists m :: m in b.group && d.address(m) == Some(a) && Message(m, collected[a]) in sent
    {
      if collected[a] == msg.info && msg.sender in b.group && d.address(msg.sender) == Some(a) {
        assert Message(msg.sender, msg.info) in sent;
      } else {
        var m :| m in b.group && d.address(m) == Some(a) && Message(m, b.collected[a]) in sent;
      }
    }
  }

  ghost function Addressed(d: Directory, group: seq<MemberID>, addresses: set<string>): set<MemberID> {
    set m | m in Elements(group) && d.address(m).Some? && d.address(m).value in addresses
  }

  /** The map never outgrows the group; when it is as large, the members have one address each. */
  lemma CollectedAtMostGroup(d: Directory, sent: set<Message>, b: Broadcaster)
    requires Sourced(d, sent, b)
    ensures |b.collected| <= |Addressed(d, b.group, b.collected.Keys)| <= |Elements(b.group)| <= |b.group|
  {
    ElementsAtMostLength(b.group);
    SubsetSize(Addressed(d, b.group, b.collected.Keys), Elements(b.group));
    forall a | a in b.collected.Keys
      ensures exists m :: m in Addressed(d, b.group, b.collected.Keys) && d.address(m) == Some(a)
    {
      var m :| m in b.group && d.address(m) == Some(a) && Message(m, b.collected[a]) in sent;
      assert m in Addressed(d, b.group, b.collected.Keys);
    }
    FewerAddressesThanSenders(b.collected.Keys, Addressed(d, b.group, b.collected.Keys), d);
    assert |b.collected.Keys| == |b.collected|;
  }

  lemma StepKeepsInvariant(net: Net, s: Round, step: RoundStep)
    requires CanTake(net, s, step) && Invariant(net, s)
    ensures Invariant(net, Take(net, s, step))
  {
    var s' := Take(net, s, step);
    forall p | p in s'.members ensures MemberInvariant(net, s'.sent, s'.members[p]) {
      var b, b' := s.members[p], s'.members[p];
      if step.Receive? && step.p == p {
        CollectedIsSourced(net.directory, s.sent, b, step.msg);
        assert Sourced(net.directory, s'.sent, b');
        CollectedAtMostGroup(net.directory, s'.sent, b');
        SubsetSize(b.collected.Keys, b'.collected.Keys);
        assert |b.collected.Keys| == |b.collected| && |b'.collected.Keys| == |b'.collected|;
      } else {
        MoreSent(net.directory, s.sent, s'.sent, b);
        if step.Retrieve? && step.p == p {
          assert Iterates(step.order, b'.collected);
          assert Read(b', net.valid);
        }
      }
    }
  }

  lemma {:induction false} RunKeepsInvariant(net: Net, run: seq<Round>, steps: seq<RoundStep>, i: nat)
    requires IsRoundRun(net, run, steps) && i < |run| && RoundStart(run[0])
    ensures Invariant(net, run[i])
  {
    if i > 0 {
      RunKeepsInvariant(net, run, steps, i - 1);
      StepKeepsInvariant(net, run[i - 1], steps[i - 1]);
    }
  }

  lemma {:induction false} SentOnlyGrows(net: Net, run: seq<Round>, steps: seq<RoundStep>, i: nat, j: nat)
    requires IsRoundRun(net, run, steps) && i <= j < |run|
    ensures run[i].sent <= run[j].sent
  {
    if i < j {
      SentOnlyGrows(net, run, steps, i, j - 1);
      assert CanTake(net, run[j - 1], steps[j - 1]);
    }
  }

  // ---- A full map is the same for everybody ----

  /** The map holds, under each group member's address, the pair that member sent. */
  ghost predicate HoldsAll(d: Directory, sent: set<Message>, b: Broadcaster) {
    forall m :: m in b.group ==>
      && d.address(m).Some? && d.address(m).value in b.collected
      && Message(m, b.collected[d.address(m).value]) in sent
  }

  /** Two members with one address: the others cannot account for as many addresses as there are members. */
  lemma SharedAddress(d: Directory, sent: set<Message>, b: Broadcaster, m: MemberID, n: MemberID)
    requires Sourced(d, sent, b) && m != n
    requires m in Addressed(d, b.group, b.collected.Keys) && n in Addressed(d, b.group, b.collected.Keys)
    requires d.address(m) == d.address(n)
    ensures |b.collected| < |Addressed(d, b.group, b.collected.Keys)|
  {
    var all := Addressed(d, b.group, b.collected.Keys);
    forall x | x in b.collected.Keys ensures exists o :: o in all - {m} && d.address(o) == Some(x) {
      var o :| o in b.group && d.address(o) == Some(x) && Message(o, b.collected[x]) in sent;
      assert o in Elements(b.group);
      assert o in all;
      if o == m {
        assert n in all - {m};
      } else {
        assert o in all - {m};
      }
    }
    FewerAddressesThanSenders(b.collected.Keys, all - {m}, d);
    assert |b.collected.Keys| == |b.collected|;
  }

  lemma FullMapHoldsAll(d: Directory, sent: set<Message>, b: Broadcaster)
    requires Sourced(d, sent, b) && |b.collected| == |b.group|
    ensures HoldsAll(d, sent, b)
  {
    CollectedAtMostGroup(d, sent, b);
    var all := Addressed(d, b.group, b.collected.Keys);
    SubsetOfSameSize(all, Elements(b.group));
    forall m | m in b.group
      ensures d.address(m).Some? && d.address(m).value in b.collected
      ensures Message(m, b.collected[d.address(m).value]) in sent
    {
      assert m in Elements(b.group);
      assert m in all;
      var a := d.address(m).value;
      var n :| n in b.group && d.address(n) == Some(a) && Message(n, b.collected[a]) in sent;
      assert n in all;
      if n != m {
        SharedAddress(d, sent, b, m, n);
      }
    }
  }

  lemma FullMapsAgree(d: Directory, sent: set<Message>, b: Broadcaster, c: Broadcaster)
    requires Sourced(d, sent, b) && |b.collected| == |b.group|
    requires Sourced(d, sent, c) && |c.collected| == |c.group|
    requires Elements(b.group) == Elements(c.group) && OnePairEach(sent, Elements(b.group))
    ensures b.collected == c.collected
  {
    hide Sourced, HoldsAll, OnePairEach;
    FullMapHoldsAll(d, sent, b);
    FullMapHoldsAll(d, sent, c);
    SameEntries(d, sent, b, c);
    SameEntries(d, sent, c, b);
  }

  lemma SameEntries(d: Directory, sent: set<Message>, b: Broadcaster, c: Broadcaster)
    requires Sourced(d, sent, b) && HoldsAll(d, sent, c)
    requires Elements(b.group) == Elements(c.group) && OnePairEach(sent, Elements(b.group))
    ensures forall a :: a in b.collected ==> a in c.collected && c.collected[a] == b.collected[a]
  {
    forall a | a in b.collected ensures a in c.collected && c.collected[a] == b.collected[a] {
      var m :| m in b.group && d.address(m) == Some(a) && Message(m, b.collected[a]) in sent;
      assert m in Elements(b.group);
      assert m in Elements(c.group) && m in c.group;
      assert Message(m, c.collected[a]) in sent;
    }
  }

  lemma OrdersArePermuted(s: seq<string>, t: seq<string>, m: map<string, RecoveryInfo>)
    requires Iterates(s, m) && Iterates(t, m)
    ensures multiset(s) == multiset(t)
  {
    forall k ensures multiset(s)[k] == multiset(t)[k] {
      OccursOnce(s, k);
      OccursOnce(t, k);
    }
  }

  lemma {:induction false} OccursOnce(s: seq<string>, k: string)
    requires forall i, j :: 0 <= i < j < |s| ==> s[i] != s[j]
    ensures multiset(s)[k] == if k in s then 1 else 0
  {
    if s != [] {
      OccursOnce(s[1..], k);
      assert s == [s[0]] + s[1..];
      assert s[0] !in s[1..];
    }
  }

  /**
   Agreement: in every run, for every delivery order, duplication and iteration order, two members
   of one group that complete the round both fail or return the same addresses and the same fee.
   */
  lemma MembersAgree(net: Net, run: seq<Round>, steps: seq<RoundStep>, i: nat, j: nat, p: MemberID, q: MemberID)
    requires IsRoundRun(net, run, steps) && i < |run| && j < |run| && RoundStart(run[0])
    requires Completed(run[i], p) && Completed(run[j], q)
    requires Elements(run[i].members[p].group) == Elements(run[j].members[q].group)
    requires OnePairEach(run[|steps|].sent, Elements(run[i].members[p].group))
    ensures SameVerdict(run[i].members[p].phase.verdict, run[j].members[q].phase.verdict)
  {
    var b, c, sent := run[i].members[p], run[j].members[q], run[|steps|].sent;
    CompletedMember(net, run, steps, i, p);
    CompletedMember(net, run, steps, j, q);
    FullMapsAgree(net.directory, sent, b, c);
    var s :| Iterates(s, b.collected) && b.phase.verdict == Conclude(Entries(s, b.collected), net.valid);
    var t :| Iterates(t, c.collected) && c.phase.verdict == Conclude(Entries(t, c.collected), net.valid);
    OrdersArePermuted(s, t, b.collected);
    EntriesArePermuted(s, t, b.collected);
    ConcludeIgnoresOrder(Entries(s, b.collected), Entries(t, b.collected), net.valid);
  }

  lemma CompletedMember(net: Net, run: seq<Round>, steps: seq<RoundStep>, i: nat, p: MemberID)
    requires IsRoundRun(net, run, steps) && i < |run| && RoundStart(run[0]) && Completed(run[i], p)
    ensures var b := run[i].members[p];
            Sourced(net.directory, run[|steps|].sent, b) && |b.collected| == |b.group| && Read(b, net.valid)
  {
    RunKeepsInvariant(net, run, steps, i);
    SentOnlyGrows(net, run, steps, i, |steps|);
    assert MemberInvariant(net, run[i].sent, run[i].members[p]);
    MoreSent(net.directory, run[i].sent, run[|steps|].sent, run[i].members[p]);
  }

  // ---- What the agreed result is ----

  /** The pairs the group members sent, in the order of the group. */
  ghost predicate Sends(sent: set<Message>, group: seq<MemberID>, infos: seq<RecoveryInfo>) {
    |infos| == |group| && forall i :: 0 <= i < |group| ==> Message(group[i], infos[i]) in sent
  }

  ghost predicate SpeaksFor(verdict: Verdict, infos: seq<RecoveryInfo>, valid: string -> bool) {
    && (verdict.Ok? <==> forall k :: 0 <= k < |infos| ==> valid(infos[k].btcAddress))
    && (verdict.Ok? ==>
          && Sorted(verdict.value.btcAddresses)
          && multiset(verdict.value.btcAddresses) == multiset(Addresses(infos))
          && (forall k :: 0 <= k < |infos| ==> verdict.value.maxFeePerVByte <= infos[k].maxFeePerVByte)
          && (verdict.value.maxFeePerVByte == MAX_INT_32 || verdict.value.maxFeePerVByte in Fees(infos)))
  }

  lemma ConcludeSpeaksFor(s: seq<RecoveryInfo>, infos: seq<RecoveryInfo>, valid: string -> bool)
    requires multiset(s) == multiset(infos)
    ensures SpeaksFor(Conclude(s, valid), infos, valid)
  {
    ConcludeIgnoresOrder(s, infos, valid);
    forall k | 0 <= k < |infos| ensures Lowest(Fees(infos)) <= infos[k].maxFeePerVByte {
      assert Fees(infos)[k] == infos[k].maxFeePerVByte && Fees(infos)[k] in Fees(infos);
    }
  }

  /**
   A completed round speaks for the whole group: it fails exactly when some member sent an invalid
   address, and otherwise lists each member's address, sorted, with the lowest fee anybody allowed.
   */
  lemma VerdictSpeaksForTheGroup(
    net: Net, run: seq<Round>, steps: seq<RoundStep>, i: nat, p: MemberID, infos: seq<RecoveryInfo>)
    requires IsRoundRun(net, run, steps) && i < |run| && RoundStart(run[0]) && Completed(run[i], p)
    requires OnePairEach(run[|steps|].sent, Elements(run[i].members[p].group))
    requires Sends(run[|steps|].sent, run[i].members[p].group, infos)
    ensures SpeaksFor(run[i].members[p].phase.verdict, infos, net.valid)
  {
    hide Conclude, OnePairEach, Sends, SpeaksFor, Sourced;
    var b, sent := run[i].members[p], run[|steps|].sent;
    CompletedMember(net, run, steps, i, p);
    var order :| Iterates(order, b.collected) && b.phase.verdict == Conclude(Entries(order, b.collected), net.valid);
    EntriesAreTheGroups(net.directory, sent, b, order, infos);
    ConcludeSpeaksFor(Entries(order, b.collected), infos, net.valid);
  }

  lemma EntriesAreTheGroups(
    d: Directory, sent: set<Message>, b: Broadcaster, order: seq<string>, infos: seq<RecoveryInfo>)
    requires Sourced(d, sent, b) && |b.collected| == |b.group| && Iterates(order, b.collected)
    requires OnePairEach(sent, Elements(b.group)) && Sends(sent, b.group, infos)
    ensures multiset(Entries(order, b.collected)) == multiset(infos)
  {
    hide Sourced;
    FullMapHoldsAll(d, sent, b);
    GroupOrder(d, sent, b);
    var addresses := AddressesOf(d, b.group);
    GroupEntries(d, sent, b, infos);
    hide HoldsAll, OnePairEach, Sends;
    OrdersArePermuted(order, addresses, b.collected);
    EntriesArePermuted(order, addresses, b.collected);
  }

  lemma GroupEntries(d: Directory, sent: set<Message>, b: Broadcaster, infos: seq<RecoveryInfo>)
    requires HoldsAll(d, sent, b) && OnePairEach(sent, Elements(b.group)) && Sends(sent, b.group, infos)
    ensures Entries(AddressesOf(d, b.group), b.collected) == infos
  {
    var entries := Entries(AddressesOf(d, b.group), b.collected);
    forall k | 0 <= k < |b.group| ensures entries[k] == infos[k] {
      var m := b.group[k];
      assert m in Elements(b.group);
      assert Message(m, entries[k]) in sent && Message(m, infos[k]) in sent;
    }
  }

  ghost function AddressesOf(d: Directory, group: seq<MemberID>): seq<string>
    requires forall m :: m in group ==> d.address(m).Some?
  {
    seq(|group|, i requires 0 <= i < |group| => d.address(group[i]).value)
  }

  /** The addresses of the group, in its own order, are one way to iterate a full map. */
  lemma GroupOrder(d: Directory, sent: set<Message>, b: Broadcaster)
    requires Sourced(d, sent, b) && |b.collected| == |b.group| && HoldsAll(d, sent, b)
    ensures Iterates(AddressesOf(d, b.group), b.collected)
  {
    var s := AddressesOf(d, b.group);
    forall k | k in b.collected ensures k in s {
      var m :| m in b.group && d.address(m) == Some(k) && Message(m, b.collected[k]) in sent;
      var i :| 0 <= i < |b.group| && b.group[i] == m;
      assert s[i] == k;
    }
    assert Elements(s) == b.collected.Keys;
    assert |b.collected.Keys| == |b.collected|;
    FullSizeMeansDistinct(s);
  }

  lemma {:induction false} FullSizeMeansDistinct(s: seq<string>)
    requires |Elements(s)| == |s|
    ensures forall i, j :: 0 <= i < j < |s| ==> s[i] != s[j]
  {
    if s != [] {
      var rest := s[1..];
      assert s == [s[0]] + rest;
      assert Elements(s) == {s[0]} + Elements(rest);
      ElementsAtMostLength(rest);
      assert s[0] !in Elements(rest);
      FullSizeMeansDistinct(rest);
      forall i, j | 0 <= i < j < |s| ensures s[i] != s[j] {
        assert s[j] == rest[j - 1];
        assert rest[j - 1] in Elements(rest);
        if i > 0 {
          assert s[i] == rest[i - 1];
        }
      }
    }
  }

  /**
   The two rounds in sequence: the groups are those of a completed announcement, so every member that
   announced and then completed the recovery round returns the same result.
   */
  lemma AgreementAfterAnnouncement(
    setup: Setup, session: seq<Session>, sessionSteps: seq<Step>, k: nat, l: nat,
    net: Net, run: seq<Round>, steps: seq<RoundStep>, i: nat, j: nat, p: MemberID, q: MemberID)
    requires IsRun(setup, session, sessionSteps) && k < |session| && l < |session|
    requires KeyGenerationStart(session[0]) && OneKeyPerOperator(setup.directory)
    requires Barrier.Announces(session[k], p) && Barrier.Announces(session[l], q)
    requires IsRoundRun(net, run, steps) && i < |run| && j < |run| && RoundStart(run[0])
    requires Completed(run[i], p) && Completed(run[j], q)
    requires run[i].members[p].group == session[k].members[p].group
    requires run[j].members[q].group == session[l].members[q].group
    requires OnePairEach(run[|steps|].sent, Elements(run[i].members[p].group))
    ensures SameVerdict(run[i].members[p].phase.verdict, run[j].members[q].phase.verdict)
    ensures var verdict := run[i].members[p].phase.verdict;
            verdict.Ok? ==> |verdict.value.btcAddresses| == |setup.keepMembers|
  {
    hide IsRun, IsRoundRun, OneKeyPerOperator, OnePairEach, SameVerdict, Barrier.OneKeyFor;
    Barrier.AnnouncementAgreement(setup, session, sessionSteps, k, l, p, q);
    MembersAgree(net, run, steps, i, j, p, q);
    OneAddressPerMember(net, run, steps, i, p);
  }

  lemma OneAddressPerMember(net: Net, run: seq<Round>, steps: seq<RoundStep>, i: nat, p: MemberID)
    requires IsRoundRun(net, run, steps) && i < |run| && RoundStart(run[0]) && Completed(run[i], p)
    ensures var verdict := run[i].members[p].phase.verdict;
            verdict.Ok? ==> |verdict.value.btcAddresses| == |run[i].members[p].group|
  {
    CompletedMember(net, run, steps, i, p);
    var b := run[i].members[p];
    var order :| Iterates(order, b.collected) && b.phase.verdict == Conclude(Entries(order, b.collected), net.valid);
    Barrier.DistinctLength(order);
    assert Elements(order) == b.collected.Keys;
    assert |b.collected.Keys| == |b.collected|;
    if b.phase.verdict.Ok? {
      var listed := b.phase.verdict.value.btcAddresses;
      assert |multiset(listed)| == |multiset(Addresses(Entries(order, b.collected)))|;
    }
  }
}
