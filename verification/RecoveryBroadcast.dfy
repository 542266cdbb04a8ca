/**
 The round in which the members of a terminated keep exchange Bitcoin addresses and fee limits. Every
 member collects one pair per peer in a map keyed by the peer's address; the list and the fee it
 returns are read out of that map in whatever order Go iterates it.
 */
module RecoveryBroadcast {
  import opened Wrappers
  import opened GroupProtocol
  import opened StringOrder

  const MAX_INT_32 := 2147483647

  /** What one member broadcasts; the fee is a signed 32-bit integer. */
  datatype RecoveryInfo = RecoveryInfo(btcAddress: string, maxFeePerVByte: int)

  datatype Message = Message(sender: MemberID, info: RecoveryInfo)

  /** The value BroadcastRecoveryAddress returns on success. */
  datatype Agreed = Agreed(btcAddresses: seq<string>, maxFeePerVByte: int)

  datatype Failure = TimedOut | InvalidAddress(btcAddress: string)

  type Verdict = Result<Agreed, Failure>

  function CollectAfter(
    collected: map<string, RecoveryInfo>, d: Directory, group: seq<MemberID>, msg: Message): map<string, RecoveryInfo>
  {
    if msg.sender in group && d.address(msg.sender).Some?
    then collected[d.address(msg.sender).value := msg.info] else collected
  }

  function CollectAll(
    collected: map<string, RecoveryInfo>, d: Directory, group: seq<MemberID>, msgs: seq<Message>): map<string, RecoveryInfo>
  {
    if msgs == [] then collected
    else CollectAfter(CollectAll(collected, d, group, msgs[..|msgs| - 1]), d, group, msgs[|msgs| - 1])
  }

  predicate IsPairOf(d: Directory, group: seq<MemberID>, msg: Message, address: string) {
    msg.sender in group && d.address(msg.sender) == Some(address)
  }

  lemma OneMorePair(collected: map<string, RecoveryInfo>, d: Directory, group: seq<MemberID>, msg: Message, address: string)
    ensures var after := CollectAfter(collected, d, group, msg);
            if IsPairOf(d, group, msg, address) then address in after && after[address] == msg.info
            else (address in after <==> address in collected)
                 && (address in after ==> after[address] == collected[address])
  {
  }

  /** An address is collected exactly when a group member that has it sent a pair. */
  lemma {:induction false} CollectedExactly(d: Directory, group: seq<MemberID>, msgs: seq<Message>, address: string)
    ensures address in CollectAll(map[], d, group, msgs) <==>
            exists i :: 0 <= i < |msgs| && IsPairOf(d, group, msgs[i], address)
    decreases |msgs|
  {
    if msgs != [] {
      var n := |msgs| - 1;
      var rest := msgs[..n];
      CollectedExactly(d, group, rest, address);
      OneMorePair(CollectAll(map[], d, group, rest), d, group, msgs[n], address);
      hide CollectAfter, IsPairOf;
      if IsPairOf(d, group, msgs[n], address) {
        assert address in CollectAll(map[], d, group, msgs);
      } else if i :| 0 <= i < |rest| && IsPairOf(d, group, rest[i], address) {
        assert IsPairOf(d, group, msgs[i], address);
      }
    }
  }

  /** Of several pairs for one address the last is kept. */
  lemma {:induction false} LastPairIsKept(d: Directory, group: seq<MemberID>, msgs: seq<Message>, i: int, address: string)
    requires 0 <= i < |msgs| && IsPairOf(d, group, msgs[i], address)
    requires forall j :: i < j < |msgs| ==> !IsPairOf(d, group, msgs[j], address)
    ensures address in CollectAll(map[], d, group, msgs)
    ensures CollectAll(map[], d, group, msgs)[address] == msgs[i].info
    decreases |msgs|
  {
    var n := |msgs| - 1;
    OneMorePair(CollectAll(map[], d, group, msgs[..n]), d, group, msgs[n], address);
    hide CollectAfter, IsPairOf;
    if i < n {
      LastPairIsKept(d, group, msgs[..n], i, address);
    }
  }

  /** The smallest of the fees, starting from the largest 32-bit integer. */
  function Lowest(fees: seq<int>): (r: int)
    ensures forall f :: f in fees ==> r <= f
    ensures r == MAX_INT_32 || r in fees
    ensures r <= MAX_INT_32
  {
    if fees == [] then MAX_INT_32
    else
      var last := fees[|fees| - 1];
      var before := Lowest(fees[..|fees| - 1]);
      assert fees == fees[..|fees| - 1] + [last];
      if last < before then last else before
  }

  function Addresses(infos: seq<RecoveryInfo>): seq<string> {
    seq(|infos|, i requires 0 <= i < |infos| => infos[i].btcAddress)
  }

  function Fees(infos: seq<RecoveryInfo>): seq<int> {
    seq(|infos|, i requires 0 <= i < |infos| => infos[i].maxFeePerVByte)
  }

  predicate AllValid(infos: seq<RecoveryInfo>, valid: string -> bool) {
    forall i :: 0 <= i < |infos| ==> valid(infos[i].btcAddress)
  }

  /** The first invalid address of the list ends the round with an error. */
  function FirstInvalid(infos: seq<RecoveryInfo>, valid: string -> bool): (r: string)
    requires !AllValid(infos, valid)
    ensures !valid(r)
  {
    if !valid(infos[0].btcAddress) then infos[0].btcAddress else FirstInvalid(infos[1..], valid)
  }

  function Conclude(infos: seq<RecoveryInfo>, valid: string -> bool): Verdict {
    if AllValid(infos, valid) then Ok(Agreed(SortStrings(Addresses(infos)), Lowest(Fees(infos))))
    else Err(InvalidAddress(FirstInvalid(infos, valid)))
  }

  /** The entries of the map in the order it is iterated. */
  function Entries<V>(order: seq<string>, m: map<string, V>): seq<V>
    requires forall i :: 0 <= i < |order| ==> order[i] in m
  {
    seq(|order|, i requires 0 <= i < |order| => m[order[i]])
  }

  lemma {:induction false} FirstInvalidAfterValid(infos: seq<RecoveryInfo>, i: nat, valid: string -> bool)
    requires i < |infos| && AllValid(infos[..i], valid) && !valid(infos[i].btcAddress)
    ensures !AllValid(infos, valid) && FirstInvalid(infos, valid) == infos[i].btcAddress
  {
    if i > 0 {
      assert forall j :: 0 <= j < i ==> valid(infos[..i][j].btcAddress);
      assert infos[1..][..i - 1] == infos[..i][1..];
      FirstInvalidAfterValid(infos[1..], i - 1, valid);
    }
  }

  lemma NoInfos(infos: seq<RecoveryInfo>, valid: string -> bool)
    ensures AllValid(infos[..0], valid) && Addresses(infos[..0]) == [] && Lowest(Fees(infos[..0])) == MAX_INT_32
  {
  }

  lemma OneMoreInfo(infos: seq<RecoveryInfo>, i: nat, valid: string -> bool)
    requires i < |infos| && AllValid(infos[..i], valid) && valid(infos[i].btcAddress)
    ensures AllValid(infos[..i + 1], valid)
    ensures Addresses(infos[..i + 1]) == Addresses(infos[..i]) + [infos[i].btcAddress]
    ensures var before := Lowest(Fees(infos[..i]));
            Lowest(Fees(infos[..i + 1])) == if infos[i].maxFeePerVByte < before then infos[i].maxFeePerVByte else before
  {
    assert infos[..i + 1] == infos[..i] + [infos[i]];
    assert Fees(infos[..i + 1])[..i] == Fees(infos[..i]);
    assert forall j :: 0 <= j < i ==> valid(infos[..i][j].btcAddress);
  }

  /** The receiving side of BroadcastRecoveryAddress. */
  class RecoveryReceiver {
    const directory: Directory
    const groupMemberIDs: seq<MemberID>
    var memberRecoveryInfo: map<string, RecoveryInfo>

    constructor (directory: Directory, groupMemberIDs: seq<MemberID>)
      ensures this.directory == directory && this.groupMemberIDs == groupMemberIDs && memberRecoveryInfo == map[]
    {
      this.directory, this.groupMemberIDs := directory, groupMemberIDs;
      memberRecoveryInfo := map[];
    }

    method Receive(msg: Message) returns (complete: bool)
      modifies this
      ensures memberRecoveryInfo == CollectAfter(old(memberRecoveryInfo), directory, groupMemberIDs, msg)
      ensures complete <==> |memberRecoveryInfo| == |groupMemberIDs|
    {
      var i := 0;
      while i < |groupMemberIDs|
        invariant 0 <= i <= |groupMemberIDs|
        invariant msg.sender !in groupMemberIDs[..i]
        invariant memberRecoveryInfo == old(memberRecoveryInfo)
      {
        if msg.sender == groupMemberIDs[i] {
          var memberAddress := directory.address(groupMemberIDs[i]);
          if memberAddress.Some? {
            memberRecoveryInfo := memberRecoveryInfo[memberAddress.value := msg.info];
          }
          break;
        }
        i := i + 1;
      }
      return |memberRecoveryInfo| == |groupMemberIDs|;
    }

    /** The loop over the collected entries, once the context is cancelled. */
    method Retrieve(order: seq<string>, valid: string -> bool) returns (verdict: Verdict)
      requires Iterates(order, memberRecoveryInfo)
      ensures verdict == Conclude(Entries(order, memberRecoveryInfo), valid)
    {
      hide Lowest, Fees, Addresses, AllValid, FirstInvalid;
      ghost var infos := Entries(order, memberRecoveryInfo);
      NoInfos(infos, valid);
      var retrievalAddresses: seq<string>, maxFeePerVByte := [], MAX_INT_32;
      var i := 0;
      while i < |order|
        invariant 0 <= i <= |order|
        invariant AllValid(infos[..i], valid)
        invariant retrievalAddresses == Addresses(infos[..i])
        invariant maxFeePerVByte == Lowest(Fees(infos[..i]))
      {
        var info := memberRecoveryInfo[order[i]];
        if !valid(info.btcAddress) {
          FirstInvalidAfterValid(infos, i, valid);
          return Err(InvalidAddress(info.btcAddress));
        }
        OneMoreInfo(infos, i, valid);
        retrievalAddresses := retrievalAddresses + [info.btcAddress];
        if info.maxFeePerVByte < maxFeePerVByte {
          maxFeePerVByte := info.maxFeePerVByte;
        }
        i := i + 1;
      }
      assert infos[..i] == infos;
      return Ok(Agreed(SortStrings(retrievalAddresses), maxFeePerVByte));
    }
  }

  // ---- The verdict does not depend on the order ----

  /** `u` lists the images of `s` under `f`. */
  predicate Images<A, B(==)>(u: seq<B>, s: seq<A>, f: A -> B) {
    |u| == |s| && forall i :: 0 <= i < |s| ==> u[i] == f(s[i])
  }

  function Without<T>(t: seq<T>, i: nat): (r: seq<T>)
    requires i < |t|
    ensures |r| == |t| - 1
    ensures multiset(t) == multiset(r) + multiset{t[i]}
  {
    assert t == t[..i] + [t[i]] + t[i + 1..];
    t[..i] + t[i + 1..]
  }

  lemma ImagesWithout<A, B>(u: seq<B>, s: seq<A>, f: A -> B, i: nat)
    requires Images(u, s, f) && i < |s|
    ensures Images(Without(u, i), Without(s, i), f) && u[i] == f(s[i])
  {
  }

  lemma {:induction false} ImagesArePermuted<A, B>(s: seq<A>, t: seq<A>, u: seq<B>, v: seq<B>, f: A -> B)
    requires multiset(s) == multiset(t) && Images(u, s, f) && Images(v, t, f)
    ensures multiset(u) == multiset(v)
  {
    if s == [] {
      assert |multiset(t)| == 0;
    } else {
      assert s[0] in multiset(t);
      var i :| 0 <= i < |t| && t[i] == s[0];
      ImagesWithout(u, s, f, 0);
      ImagesWithout(v, t, f, i);
      assert multiset(Without(s, 0)) == multiset(Without(t, i)) by {
        hide Without, Images;
        assert multiset(Without(s, 0)) == multiset(s) - multiset{s[0]};
        assert multiset(Without(t, i)) == multiset(t) - multiset{s[0]};
      }
      hide Without, Images;
      ImagesArePermuted(Without(s, 0), Without(t, i), Without(u, 0), Without(v, i), f);
    }
  }

  lemma EntriesArePermuted(s: seq<string>, t: seq<string>, m: map<string, RecoveryInfo>)
    requires multiset(s) == multiset(t)
    requires forall i :: 0 <= i < |s| ==> s[i] in m
    requires forall i :: 0 <= i < |t| ==> t[i] in m
    ensures multiset(Entries(s, m)) == multiset(Entries(t, m))
  {
    ImagesArePermuted(s, t, Entries(s, m), Entries(t, m), (k: string) => if k in m then m[k] else RecoveryInfo([], 0));
  }

  lemma AddressesAndFeesArePermuted(s: seq<RecoveryInfo>, t: seq<RecoveryInfo>)
    requires multiset(s) == multiset(t)
    ensures multiset(Addresses(s)) == multiset(Addresses(t))
    ensures multiset(Fees(s)) == multiset(Fees(t))
  {
    ImagesArePermuted(s, t, Addresses(s), Addresses(t), (info: RecoveryInfo) => info.btcAddress);
    ImagesArePermuted(s, t, Fees(s), Fees(t), (info: RecoveryInfo) => info.maxFeePerVByte);
  }

  lemma LowestIgnoresOrder(s: seq<int>, t: seq<int>)
    requires multiset(s) == multiset(t)
    ensures Lowest(s) == Lowest(t)
  {
    assert forall f :: f in s <==> f in multiset(t);
    assert forall f :: f in t <==> f in multiset(t);
  }

  /** Both fail, or both give the same addresses and the same fee. */
  predicate SameVerdict(v: Verdict, w: Verdict) {
    (v.Ok? <==> w.Ok?) && (v.Ok? ==> v == w)
  }

  lemma ConcludeIgnoresOrder(s: seq<RecoveryInfo>, t: seq<RecoveryInfo>, valid: string -> bool)
    requires multiset(s) == multiset(t)
    ensures SameVerdict(Conclude(s, valid), Conclude(t, valid))
  {
    AddressesAndFeesArePermuted(s, t);
    LowestIgnoresOrder(Fees(s), Fees(t));
    SortedListsOfSameElements(SortStrings(Addresses(s)), SortStrings(Addresses(t)));
    forall i | 0 <= i < |s| && AllValid(t, valid) ensures valid(s[i].btcAddress) {
      assert s[i] in multiset(t);
    }
    forall i | 0 <= i < |t| && AllValid(s, valid) ensures valid(t[i].btcAddress) {
      assert t[i] in multiset(s);
    }
  }

  // ---- One round of the whole group ----

  datatype Progress = Collecting | Cancelled | Finished(verdict: Verdict)

  datatype Broadcaster = Broadcaster(
    group: seq<MemberID>, own: RecoveryInfo, collected: map<string, RecoveryInfo>, phase: Progress)

  datatype Round = Round(members: map<MemberID, Broadcaster>, sent: set<Message>)

  /** The chain's key directory and the address check of the Bitcoin network. */
  datatype Net = Net(directory: Directory, valid: string -> bool)

  datatype RoundStep =
    | Broadcast(p: MemberID)
    | Receive(p: MemberID, msg: Message)
    | Deadline(p: MemberID)
    | Retrieve(p: MemberID, order: seq<string>)
    | Inject(msg: Message)

  ghost predicate CanTake(net: Net, s: Round, step: RoundStep) {
    match step
    case Broadcast(p) => p in s.members
    // the receiving goroutine may take one more message after it has cancelled the context
    case Receive(p, msg) => p in s.members && !s.members[p].phase.Finished? && msg in s.sent
    case Deadline(p) => p in s.members && s.members[p].phase == Collecting
    case Retrieve(p, order) =>
      p in s.members && s.members[p].phase == Cancelled && Iterates(order, s.members[p].collected)
    case Inject(msg) => msg.sender !in s.members
  }

  function Take(net: Net, s: Round, step: RoundStep): Round
    requires CanTake(net, s, step)
  {
    match step
    case Broadcast(p) => s.(sent := s.sent + {Message(p, s.members[p].own)})
    case Receive(p, msg) =>
      var b := s.members[p];
      var collected := CollectAfter(b.collected, net.directory, b.group, msg);
      s.(members := s.members[p := b.(
           collected := collected, phase := if |collected| == |b.group| then Cancelled else b.phase)])
    case Deadline(p) => s.(members := s.members[p := s.members[p].(phase := Finished(Err(TimedOut)))])
    case Retrieve(p, order) =>
      var verdict := Conclude(Entries(order, s.members[p].collected), net.valid);
      s.(members := s.members[p := s.members[p].(phase := Finished(verdict))])
    case Inject(msg) => s.(sent := s.sent + {msg})
  }

  ghost predicate IsRoundRun(net: Net, run: seq<Round>, steps: seq<RoundStep>) {
    && |run| == |steps| + 1
    && forall i :: 0 <= i < |steps| ==> CanTake(net, run[i], steps[i]) && run[i + 1] == Take(net, run[i], steps[i])
  }

  ghost predicate RoundStart(s: Round) {
    s.sent == {} && forall p :: p in s.members ==> s.members[p].collected == map[] && s.members[p].phase == Collecting
  }

  ghost predicate Completed(s: Round, p: MemberID) {
    p in s.members && s.members[p].phase.Finished? && s.members[p].phase.verdict != Err(TimedOut)
  }

  /** No member of the group ever sends two different pairs. */
  ghost predicate OnePairEach(sent: set<Message>, group: set<MemberID>) {
    forall a, b :: a in sent && b in sent && a.sender == b.sender && a.sender in group ==> a == b
  }
}
