/**
 Why agreement needs one pair from each member: a member that sends two pairs in one round can split
 the group, although everybody completes.
 */
module RecoverySplit {
  import opened Wrappers
  import opened GroupProtocol
  import opened StringOrder
  import opened RecoveryBroadcast

  const OPEN_NET := Net(Directory((m: MemberID) => Some(m), (m: MemberID) => Some(m)), (address: string) => true)

  const GROUP: seq<MemberID> := ["a", "b", "c"]

  /** What every member sends, and the second pair that the member "b" sends as well. */
  const FAIR := RecoveryInfo("address", 9)
  const CHEAP := RecoveryInfo("address", 1)

  function Extended(run: seq<Round>, step: RoundStep): seq<Round>
    requires run != [] && CanTake(OPEN_NET, run[|run| - 1], step)
  {
    run + [Take(OPEN_NET, run[|run| - 1], step)]
  }

  lemma Extend(run: seq<Round>, steps: seq<RoundStep>, step: RoundStep)
    requires IsRoundRun(OPEN_NET, run, steps) && CanTake(OPEN_NET, run[|run| - 1], step)
    ensures IsRoundRun(OPEN_NET, Extended(run, step), steps + [step])
  {
    hide CanTake, Take;
  }

  /** A member that is still to receive. */
  predicate Waits(s: Round, p: MemberID) {
    p in s.members && s.members[p] == Broadcaster(GROUP, FAIR, map[], Collecting)
  }

  function Collected(pair: RecoveryInfo): map<string, RecoveryInfo> {
    map["a" := FAIR, "c" := FAIR, "b" := pair]
  }

  /** The member receives from all three, `pair` from "b", and finishes; the others are as before. */
  lemma Complete(run: seq<Round>, steps: seq<RoundStep>, p: MemberID, pair: RecoveryInfo)
    returns (run': seq<Round>, steps': seq<RoundStep>)
    requires IsRoundRun(OPEN_NET, run, steps)
    requires run != []
    requires var s := run[|run| - 1];
             Waits(s, p) && Message("a", FAIR) in s.sent && Message("c", FAIR) in s.sent && Message("b", pair) in s.sent
    ensures IsRoundRun(OPEN_NET, run', steps') && run <= run'
    ensures var s, s' := run[|run| - 1], run'[|run'| - 1];
            && s'.sent == s.sent && p in s'.members
            && s'.members == s.members[p := s'.members[p]]
            && s'.members[p].group == GROUP
            && s'.members[p].phase == Finished(Conclude([FAIR, pair, FAIR], OPEN_NET.valid))
  {
    hide IsRoundRun, Conclude;
    var r1, s1 := ReceiveOne(run, steps, p, Message("a", FAIR), map[], map["a" := FAIR], Collecting);
    var r2, s2 := ReceiveOne(r1, s1, p, Message("c", FAIR), map["a" := FAIR], map["a" := FAIR, "c" := FAIR], Collecting);
    var r3, s3 := ReceiveOne(r2, s2, p, Message("b", pair), map["a" := FAIR, "c" := FAIR], Collected(pair), Cancelled);
    run', steps' := FinishOne(r3, s3, p, pair);
  }

  lemma ReceiveOne(
    run: seq<Round>, steps: seq<RoundStep>, p: MemberID, msg: Message,
    before: map<string, RecoveryInfo>, after: map<string, RecoveryInfo>, phase: Progress)
    returns (run': seq<Round>, steps': seq<RoundStep>)
    requires IsRoundRun(OPEN_NET, run, steps)
    requires var s := run[|run| - 1];
             && p in s.members && s.members[p] == Broadcaster(GROUP, FAIR, before, Collecting)
             && msg in s.sent && msg.sender in GROUP
    requires after == before[msg.sender := msg.info] && phase == if |after| == 3 then Cancelled else Collecting
    ensures IsRoundRun(OPEN_NET, run', steps') && run <= run'
    ensures var s, s' := run[|run| - 1], run'[|run'| - 1];
            s' == s.(members := s.members[p := Broadcaster(GROUP, FAIR, after, phase)])
  {
    var step := Receive(p, msg);
    Extend(run, steps, step);
    run', steps' := Extended(run, step), steps + [step];
  }

  lemma FinishOne(run: seq<Round>, steps: seq<RoundStep>, p: MemberID, pair: RecoveryInfo)
    returns (run': seq<Round>, steps': seq<RoundStep>)
    requires IsRoundRun(OPEN_NET, run, steps)
    requires var s := run[|run| - 1];
             p in s.members && s.members[p] == Broadcaster(GROUP, FAIR, Collected(pair), Cancelled)
    ensures IsRoundRun(OPEN_NET, run', steps') && run <= run'
    ensures var s, s' := run[|run| - 1], run'[|run'| - 1];
            s' == s.(members := s.members[p := Broadcaster(
                       GROUP, FAIR, Collected(pair), Finished(Conclude([FAIR, pair, FAIR], OPEN_NET.valid)))])
  {
    var order := ["a", "b", "c"];
    var step := Retrieve(p, order);
    assert Iterates(order, Collected(pair)) by {
      assert order[0] == "a" && order[1] == "b" && order[2] == "c";
    }
    assert Entries(order, Collected(pair)) == [FAIR, pair, FAIR];
    Extend(run, steps, step);
    run', steps' := Extended(run, step), steps + [step];
  }

  const START := Round(
    map["a" := Broadcaster(GROUP, FAIR, map[], Collecting), "c" := Broadcaster(GROUP, FAIR, map[], Collecting)], {})

  const ALL_SENT := {Message("a", FAIR), Message("c", FAIR), Message("b", FAIR), Message("b", CHEAP)}

  lemma AllSend() returns (run: seq<Round>, steps: seq<RoundStep>)
    ensures IsRoundRun(OPEN_NET, run, steps) && run[0] == START
    ensures run[|run| - 1] == START.(sent := ALL_SENT)
  {
    run, steps := [START], [];
    Extend(run, steps, Broadcast("a"));
    run, steps := Extended(run, Broadcast("a")), steps + [Broadcast("a")];
    Extend(run, steps, Broadcast("c"));
    run, steps := Extended(run, Broadcast("c")), steps + [Broadcast("c")];
    Extend(run, steps, Inject(Message("b", FAIR)));
    run, steps := Extended(run, Inject(Message("b", FAIR))), steps + [Inject(Message("b", FAIR))];
    Extend(run, steps, Inject(Message("b", CHEAP)));
    run, steps := Extended(run, Inject(Message("b", CHEAP))), steps + [Inject(Message("b", CHEAP))];
    assert run[|run| - 1].sent == ALL_SENT;
  }

  lemma VerdictsDiffer()
    ensures !SameVerdict(Conclude([FAIR, FAIR, FAIR], OPEN_NET.valid), Conclude([FAIR, CHEAP, FAIR], OPEN_NET.valid))
  {
    var dear, cheap := Fees([FAIR, FAIR, FAIR]), Fees([FAIR, CHEAP, FAIR]);
    assert dear == [9, 9, 9] && cheap == [9, 1, 9];
    assert cheap[1] in cheap && Lowest(cheap) <= 1;
    assert Lowest(dear) == 9 by {
      assert dear[0] in dear;
    }
  }

  /**
   A run in which "b" sends two pairs and the two other members of its group, who both complete with
   success, return different results.
   */
  lemma TwoPairsSplitTheGroup() returns (run: seq<Round>, steps: seq<RoundStep>)
    ensures IsRoundRun(OPEN_NET, run, steps) && RoundStart(run[0])
    ensures var end := run[|run| - 1];
            && Completed(end, "a") && Completed(end, "c") && end.members["a"].group == end.members["c"].group
            && !SameVerdict(end.members["a"].phase.verdict, end.members["c"].phase.verdict)
  {
    hide IsRoundRun, Conclude;
    run, steps := AllSend();
    run, steps := Complete(run, steps, "a", FAIR);
    run, steps := Complete(run, steps, "c", CHEAP);
    VerdictsDiffer();
    BothSucceed();
  }

  lemma BothSucceed()
    ensures Conclude([FAIR, FAIR, FAIR], OPEN_NET.valid).Ok? && Conclude([FAIR, CHEAP, FAIR], OPEN_NET.valid).Ok?
  {
  }
}
