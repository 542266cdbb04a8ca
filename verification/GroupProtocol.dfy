/**
 The announce and ready protocols of one session of a keep. Every member broadcasts, collects what
 it receives in a map, and moves on when the map is as large as the group. Messages are never lost
 from the network, arrive in any order and any number of times, and anybody may send one.
 */
module GroupProtocol {
  import opened Wrappers

  /** The marshalled public key of a member. */
  type MemberID = string

  /** What the chain and the key format say about a member ID; None for an ID that is no public key. */
  datatype Directory = Directory(
    operatorID: MemberID -> Option<string>,
    address: MemberID -> Option<string>)

  function ToLower(s: string): (r: string)
    ensures |r| == |s|
  {
    seq(|s|, i requires 0 <= i < |s| => if 'A' <= s[i] <= 'Z' then (s[i] as int + 32) as char else s[i])
  }

  predicate SameOperator(d: Directory, m: MemberID, n: MemberID) {
    && d.operatorID(m).Some?
    && d.operatorID(n).Some?
    && ToLower(d.operatorID(m).value) == ToLower(d.operatorID(n).value)
  }

  /** Two keys never share an operator, whatever the letter case its identifier is written in. */
  ghost predicate OneKeyPerOperator(d: Directory) {
    forall m, n :: SameOperator(d, m, n) ==> m == n
  }

  function AnnounceAfter(received: map<string, MemberID>, d: Directory, sender: MemberID): map<string, MemberID> {
    if d.operatorID(sender).None? then received
    else received[ToLower(d.operatorID(sender).value) := sender]
  }

  /** Senders outside the group, and members whose ID cannot be turned into an address, are ignored. */
  function ReadyAfter(ready: map<string, bool>, d: Directory, group: seq<MemberID>, sender: MemberID): map<string, bool> {
    if sender in group && d.address(sender).Some? then ready[d.address(sender).value := true] else ready
  }

  /** The receiving side of AnnounceProtocol. */
  class AnnounceReceiver {
    const directory: Directory
    const keepMemberIDs: seq<string>
    var receivedMemberIDs: map<string, MemberID>

    constructor (directory: Directory, keepMemberIDs: seq<string>)
      ensures this.directory == directory && this.keepMemberIDs == keepMemberIDs && receivedMemberIDs == map[]
    {
      this.directory, this.keepMemberIDs := directory, keepMemberIDs;
      receivedMemberIDs := map[];
    }

    method Receive(sender: MemberID) returns (complete: bool)
      modifies this
      ensures receivedMemberIDs == AnnounceAfter(old(receivedMemberIDs), directory, sender)
      ensures complete <==> directory.operatorID(sender).Some? && |receivedMemberIDs| == |keepMemberIDs|
    {
      var operatorID := directory.operatorID(sender);
      if operatorID.None? {
        return false;
      }
      receivedMemberIDs := receivedMemberIDs[ToLower(operatorID.value) := sender];
      return |receivedMemberIDs| == |keepMemberIDs|;
    }
  }

  function AnnounceAll(received: map<string, MemberID>, d: Directory, senders: seq<MemberID>): map<string, MemberID> {
    if senders == [] then received
    else AnnounceAfter(AnnounceAll(received, d, senders[..|senders| - 1]), d, senders[|senders| - 1])
  }

  predicate IsKeyOf(d: Directory, sender: MemberID, keepMemberID: string) {
    d.operatorID(sender).Some? && ToLower(d.operatorID(sender).value) == ToLower(keepMemberID)
  }

  /**
   A keep member is found announced exactly when a key of it was received, whatever the letter case its
   identifier is written in; what is kept for it is the last such key.
   */
  lemma {:induction false} AnnouncedExactly(d: Directory, senders: seq<MemberID>, keepMemberID: string)
    ensures var received := AnnounceAll(map[], d, senders);
            && (ToLower(keepMemberID) in received <==>
                  exists i :: 0 <= i < |senders| && IsKeyOf(d, senders[i], keepMemberID))
            && (ToLower(keepMemberID) in received ==> IsKeyOf(d, received[ToLower(keepMemberID)], keepMemberID))
            && (forall i :: LastKeyOf(d, senders, i, keepMemberID) ==> received[ToLower(keepMemberID)] == senders[i])
    decreases |senders|
  {
    if senders != [] {
      var n := |senders| - 1;
      var rest := senders[..n];
      AnnouncedExactly(d, rest, keepMemberID);
      if IsKeyOf(d, senders[n], keepMemberID) {
        assert LastKeyOf(d, senders, n, keepMemberID);
      } else {
        forall i | LastKeyOf(d, senders, i, keepMemberID) ensures LastKeyOf(d, rest, i, keepMemberID) {
        }
        if i :| 0 <= i < |rest| && IsKeyOf(d, rest[i], keepMemberID) {
          assert IsKeyOf(d, senders[i], keepMemberID);
        }
      }
    }
  }

  predicate LastKeyOf(d: Directory, senders: seq<MemberID>, i: int, keepMemberID: string) {
    && 0 <= i < |senders| && IsKeyOf(d, senders[i], keepMemberID)
    && forall j :: i < j < |senders| ==> !IsKeyOf(d, senders[j], keepMemberID)
  }

  /** The receiving side of readyProtocol. */
  class ReadyReceiver {
    const directory: Directory
    const groupMemberIDs: seq<MemberID>
    var readyMembers: map<string, bool>

    constructor (directory: Directory, groupMemberIDs: seq<MemberID>)
      ensures this.directory == directory && this.groupMemberIDs == groupMemberIDs && readyMembers == map[]
    {
      this.directory, this.groupMemberIDs := directory, groupMemberIDs;
      readyMembers := map[];
    }

    method Receive(sender: MemberID) returns (complete: bool)
      modifies this
      ensures readyMembers == ReadyAfter(old(readyMembers), directory, groupMemberIDs, sender)
      ensures complete <==> |readyMembers| == |groupMemberIDs|
    {
      var i := 0;
      while i < |groupMemberIDs|
        invariant 0 <= i <= |groupMemberIDs|
        invariant sender !in groupMemberIDs[..i]
        invariant readyMembers == old(readyMembers)
      {
        if sender == groupMemberIDs[i] {
          var memberAddress := directory.address(groupMemberIDs[i]);
          if memberAddress.Some? {
            readyMembers := readyMembers[memberAddress.value := true];
          }
          break;
        }
        i := i + 1;
      }
      return |readyMembers| == |groupMemberIDs|;
    }
  }

  function ReadyAll(
    ready: map<string, bool>, d: Directory, group: seq<MemberID>, senders: seq<MemberID>): map<string, bool>
  {
    if senders == [] then ready
    else ReadyAfter(ReadyAll(ready, d, group, senders[..|senders| - 1]), d, group, senders[|senders| - 1])
  }

  predicate Signals(d: Directory, group: seq<MemberID>, sender: MemberID, address: string) {
    sender in group && d.address(sender) == Some(address)
  }

  /** An address is ready exactly when a signal of a group member with this address was received. */
  lemma {:induction false} ReadyExactly(d: Directory, group: seq<MemberID>, senders: seq<MemberID>, address: string)
    ensures address in ReadyAll(map[], d, group, senders) <==>
            exists i :: 0 <= i < |senders| && Signals(d, group, senders[i], address)
    decreases |senders|
  {
    if senders != [] {
      var n := |senders| - 1;
      var rest := senders[..n];
      ReadyExactly(d, group, rest, address);
      if Signals(d, group, senders[n], address) {
        assert address in ReadyAll(map[], d, group, senders);
      } else if i :| 0 <= i < |rest| && Signals(d, group, rest[i], address) {
        assert Signals(d, group, senders[i], address);
      }
    }
  }

  // ---- One session of the whole group ----

  datatype Phase = Announcing | Announced | Connected | Started | Failed

  /** `group` is the member's own list of the group, in the order its map happened to be iterated. */
  datatype Member = Member(
    phase: Phase, received: map<string, MemberID>, group: seq<MemberID>, ready: map<string, bool>)

  datatype Setup = Setup(keepMembers: seq<string>, directory: Directory)

  /** `connected` remembers who has ever connected its message handlers in this session. */
  datatype Session = Session(
    members: map<MemberID, Member>,
    announces: set<MemberID>,
    readies: set<MemberID>,
    connected: set<MemberID>)

  datatype Step =
    | Announce(p: MemberID)
    | ReceiveAnnounce(p: MemberID, m: MemberID, order: seq<string>)
    | Connect(p: MemberID)
    | SignalReady(p: MemberID)
    | ReceiveReady(p: MemberID, m: MemberID)
    | Fail(p: MemberID)
    | InjectAnnounce(m: MemberID)
    | InjectReady(m: MemberID)

  /** `order` lists the keys of the map once each: one way Go may iterate it. */
  ghost predicate Iterates<V>(order: seq<string>, m: map<string, V>) {
    && (forall i, j :: 0 <= i < j < |order| ==> order[i] != order[j])
    && (forall i :: 0 <= i < |order| ==> order[i] in m)
    && (forall k :: k in m ==> k in order)
  }

  ghost predicate Enabled(setup: Setup, s: Session, step: Step) {
    match step
    case Announce(p) => p in s.members
    case ReceiveAnnounce(p, m, order) =>
      && p in s.members && s.members[p].phase == Announcing && m in s.announces
      // the address filter of the broadcast channel
      && setup.directory.operatorID(m).Some? && setup.directory.operatorID(m).value in setup.keepMembers
      && Iterates(order, AnnounceAfter(s.members[p].received, setup.directory, m))
    case Connect(p) => p in s.members && s.members[p].phase == Announced
    case SignalReady(p) => p in s.members && p in s.connected
    case ReceiveReady(p, m) => p in s.members && s.members[p].phase == Connected && m in s.readies
    case Fail(p) => p in s.members && s.members[p].phase != Started
    case InjectAnnounce(m) => m !in s.members
    case InjectReady(m) => m !in s.members
  }

  function Apply(setup: Setup, s: Session, step: Step): Session
    requires Enabled(setup, s, step)
  {
    match step
    case Announce(p) => s.(announces := s.announces + {p})
    case ReceiveAnnounce(p, m, order) =>
      var received := AnnounceAfter(s.members[p].received, setup.directory, m);
      var done := |received| == |setup.keepMembers|;
      var group := seq(|order|, i requires 0 <= i < |order| && order[i] in received => received[order[i]]);
      s.(members := s.members[p := s.members[p].(
           received := received,
           phase := if done then Announced else Announcing,
           group := if done then group else s.members[p].group)])
    case Connect(p) =>
      s.(members := s.members[p := s.members[p].(phase := Connected)], connected := s.connected + {p})
    case SignalReady(p) => s.(readies := s.readies + {p})
    case ReceiveReady(p, m) =>
      var ready := ReadyAfter(s.members[p].ready, setup.directory, s.members[p].group, m);
      var done := |ready| == |s.members[p].group|;
      s.(members := s.members[p := s.members[p].(ready := ready, phase := if done then Started else Connected)])
    case Fail(p) => s.(members := s.members[p := s.members[p].(phase := Failed)])
    case InjectAnnounce(m) => s.(announces := s.announces + {m})
    case InjectReady(m) => s.(readies := s.readies + {m})
  }

  /** A run is a sequence of states, each reached from the one before by an enabled step. */
  ghost predicate IsRun(setup: Setup, run: seq<Session>, steps: seq<Step>) {
    && |run| == |steps| + 1
    && forall i :: 0 <= i < |steps| ==> Enabled(setup, run[i], steps[i]) && run[i + 1] == Apply(setup, run[i], steps[i])
  }

  /** Key generation starts with the announcement. */
  ghost predicate KeyGenerationStart(s: Session) {
    && s.announces == {} && s.readies == {} && s.connected == {}
    && forall p :: p in s.members ==> s.members[p] == Member(Announcing, map[], [], map[])
  }

  /** Signing takes the group from the signer made by an earlier key generation. */
  ghost predicate SigningStart(s: Session) {
    && s.readies == {} && s.connected == {}
    && forall p :: p in s.members ==> s.members[p].phase == Announced && s.members[p].ready == map[]
  }

  // ---- Counting ----

  function Elements<T>(s: seq<T>): set<T> {
    set i | 0 <= i < |s| :: s[i]
  }

  lemma {:induction false} ElementsAtMostLength<T>(s: seq<T>)
    ensures |Elements(s)| <= |s|
  {
    if s != [] {
      ElementsAtMostLength(s[1..]);
      assert s == [s[0]] + s[1..];
      assert Elements(s) == {s[0]} + Elements(s[1..]);
    }
  }

  function Lowered(ids: seq<string>): set<string> {
    Elements(seq(|ids|, i requires 0 <= i < |ids| => ToLower(ids[i])))
  }

  lemma LoweredFacts(ids: seq<string>)
    ensures |Lowered(ids)| <= |ids|
    ensures forall id :: id in ids ==> ToLower(id) in Lowered(ids)
    ensures forall k :: k in Lowered(ids) ==> exists id :: id in ids && ToLower(id) == k
  {
    var lowered := seq(|ids|, i requires 0 <= i < |ids| => ToLower(ids[i]));
    ElementsAtMostLength(lowered);
    forall id | id in ids ensures ToLower(id) in Lowered(ids) {
      var i :| 0 <= i < |ids| && ids[i] == id;
      assert lowered[i] == ToLower(id);
    }
    forall k | k in Lowered(ids) ensures exists id :: id in ids && ToLower(id) == k {
      var i :| 0 <= i < |ids| && lowered[i] == k;
      assert ids[i] in ids;
    }
  }

  lemma SubsetOfSameSize<T>(a: set<T>, b: set<T>)
    requires a <= b && |a| >= |b|
    ensures a == b
  {
    if x :| x in b && x !in a {
      SubsetSize(a, b - {x});
    }
  }

  lemma {:induction false} SubsetSize<T>(a: set<T>, b: set<T>)
    requires a <= b
    ensures |a| <= |b|
  {
    if x :| x in a {
      SubsetSize(a - {x}, b - {x});
    }
  }

  /** Every address was signalled by one of the senders, and a sender has one address. */
  lemma {:induction false} FewerAddressesThanSenders(addresses: set<string>, senders: set<MemberID>, d: Directory)
    requires forall a :: a in addresses ==> exists m :: m in senders && d.address(m) == Some(a)
    ensures |addresses| <= |senders|
    decreases addresses
  {
    if a :| a in addresses {
      var m :| m in senders && d.address(m) == Some(a);
      FewerAddressesThanSenders(addresses - {a}, senders - {m}, d);
    }
  }
}
