/** Which deposits a client monitors: the two timed caches in front of the keep's answer. */
module DepositFilter {
  import opened Wrappers
  import opened TimeCaches

  datatype Caches = Caches(members: map<string, int>, notMembers: map<string, int>)

  /** What a call learns: whether the deposit is confirmed in the expected state, and the signer index; None for an error. */
  datatype Answers = Answers(hasInitialState: Option<bool>, signerIndex: Option<int>)

  function ShouldMonitor(caches: Caches, period: nat, now: int, deposit: string, answers: Answers): (Caches, bool) {
    var members, notMembers := Swept(caches.members, period, now), Swept(caches.notMembers, period, now);
    var asked := deposit !in notMembers && answers.hasInitialState == Some(true) && deposit !in members;
    if asked && answers.signerIndex.Some? then
      if answers.signerIndex.value < 0
      then (Caches(members, Added(notMembers, deposit, now)), false)
      else (Caches(Added(members, deposit, now), notMembers), true)
    else
      (Caches(members, notMembers), deposit !in notMembers && answers.hasInitialState == Some(true) && deposit in members)
  }

  class Tbtc {
    const memberDepositsCache: TimeCache
    const notMemberDepositsCache: TimeCache

    predicate Valid() {
      memberDepositsCache != notMemberDepositsCache && memberDepositsCache.timespan == notMemberDepositsCache.timespan
    }

    function View(): Caches
      reads memberDepositsCache, notMemberDepositsCache
    {
      Caches(memberDepositsCache.entries, notMemberDepositsCache.entries)
    }

    constructor (monitoringCachePeriod: nat)
      ensures Valid() && View() == Caches(map[], map[]) && memberDepositsCache.timespan == monitoringCachePeriod
      ensures fresh(memberDepositsCache) && fresh(notMemberDepositsCache)
    {
      var member := new TimeCache(monitoringCachePeriod);
      var notMember := new TimeCache(monitoringCachePeriod);
      memberDepositsCache, notMemberDepositsCache := member, notMember;
    }

    method ShouldMonitorDeposit(depositAddress: string, answers: Answers, now: int) returns (should: bool)
      requires Valid()
      modifies memberDepositsCache, notMemberDepositsCache
      ensures (View(), should) == ShouldMonitor(old(View()), memberDepositsCache.timespan, now, depositAddress, answers)
    {
      memberDepositsCache.Sweep(now);
      notMemberDepositsCache.Sweep(now);
      if notMemberDepositsCache.Has(depositAddress) {
        return false;
      }
      if answers.hasInitialState.None? {
        return false;
      }
      if !answers.hasInitialState.value {
        return false;
      }
      if memberDepositsCache.Has(depositAddress) {
        return true;
      }
      if answers.signerIndex.None? {
        return false;
      }
      if answers.signerIndex.value < 0 {
        notMemberDepositsCache.Add(depositAddress, now);
        return false;
      }
      memberDepositsCache.Add(depositAddress, now);
      return true;
    }
  }

  /** The members of a deposit's keep never change, so this client's place among them is fixed. */
  type Chain = string -> int

  ghost predicate Truthful(chain: Chain, caches: Caches) {
    && (forall d :: d in caches.members ==> chain(d) >= 0)
    && (forall d :: d in caches.notMembers ==> chain(d) < 0)
  }

  ghost predicate Answering(chain: Chain, deposit: string, answers: Answers) {
    answers.signerIndex.None? || answers.signerIndex.value == chain(deposit)
  }

  datatype Call = Call(deposit: string, answers: Answers, now: int)

  ghost predicate IsRun(chain: Chain, period: nat, run: seq<Caches>, calls: seq<Call>) {
    && |run| == |calls| + 1
    && run[0] == Caches(map[], map[])
    && (forall i :: 0 <= i < |calls| ==> Answering(chain, calls[i].deposit, calls[i].answers))
    && forall i :: 0 <= i < |calls| ==>
         run[i + 1] == ShouldMonitor(run[i], period, calls[i].now, calls[i].deposit, calls[i].answers).0
  }

  lemma {:induction false} RunKeepsTruthful(chain: Chain, period: nat, run: seq<Caches>, calls: seq<Call>, i: nat)
    requires IsRun(chain, period, run, calls) && i < |run|
    ensures Truthful(chain, run[i])
  {
    if i > 0 {
      RunKeepsTruthful(chain, period, run, calls, i - 1);
      assert Answering(chain, calls[i - 1].deposit, calls[i - 1].answers);
    }
  }

  /**
   In every run and for any errors, a deposit is monitored exactly when its state is confirmed, this
   client signs for it, and the client could find out: from the keep, or from a young cache entry.
   */
  lemma MonitoredExactly(chain: Chain, period: nat, run: seq<Caches>, calls: seq<Call>, i: nat)
    requires IsRun(chain, period, run, calls) && i < |calls|
    ensures ShouldMonitor(run[i], period, calls[i].now, calls[i].deposit, calls[i].answers).1
       <==> (&& calls[i].answers.hasInitialState == Some(true)
             && chain(calls[i].deposit) >= 0
             && (calls[i].answers.signerIndex.Some? || calls[i].deposit in Swept(run[i].members, period, calls[i].now)))
  {
    RunKeepsTruthful(chain, period, run, calls, i);
    assert Answering(chain, calls[i].deposit, calls[i].answers);
  }

  /**
   An answer of the keep is remembered: after it, and whatever else is asked, for the whole period the
   deposit is monitored exactly when its state is confirmed and the answer was nonnegative, even if the
   keep cannot be asked any more or would say something else.
   */
  lemma AnswerIsRemembered(
    caches: Caches, period: nat, now: int, deposit: string, answers: Answers,
    calls: seq<Call>, later: int, laterAnswers: Answers)
    requires deposit !in Swept(caches.members, period, now) && deposit !in Swept(caches.notMembers, period, now)
    requires answers.hasInitialState == Some(true) && answers.signerIndex.Some?
    requires forall i :: 0 <= i < |calls| ==> calls[i].now <= now + period
    requires later <= now + period
    ensures var after := AfterAll(ShouldMonitor(caches, period, now, deposit, answers).0, period, calls);
            (ShouldMonitor(after, period, later, deposit, laterAnswers).1
             <==> laterAnswers.hasInitialState == Some(true) && answers.signerIndex.value >= 0)
  {
    var first := ShouldMonitor(caches, period, now, deposit, answers).0;
    StaysRemembered(first, period, now, deposit, answers.signerIndex.value >= 0, calls);
  }

  function AfterAll(caches: Caches, period: nat, calls: seq<Call>): Caches {
    if calls == [] then caches
    else
      var last := calls[|calls| - 1];
      ShouldMonitor(AfterAll(caches, period, calls[..|calls| - 1]), period, last.now, last.deposit, last.answers).0
  }

  predicate Remembered(caches: Caches, deposit: string, time: int, isMember: bool) {
    if isMember
    then deposit in caches.members && caches.members[deposit] == time && deposit !in caches.notMembers
    else deposit in caches.notMembers && caches.notMembers[deposit] == time && deposit !in caches.members
  }

  lemma {:induction false} StaysRemembered(
    caches: Caches, period: nat, time: int, deposit: string, isMember: bool, calls: seq<Call>)
    requires Remembered(caches, deposit, time, isMember)
    requires forall i :: 0 <= i < |calls| ==> calls[i].now <= time + period
    ensures Remembered(AfterAll(caches, period, calls), deposit, time, isMember)
  {
    if calls != [] {
      StaysRemembered(caches, period, time, deposit, isMember, calls[..|calls| - 1]);
    }
  }

  /** The decision without caches. */
  function Uncached(answers: Answers): bool {
    answers.hasInitialState == Some(true) && answers.signerIndex.Some? && answers.signerIndex.value >= 0
  }

  /** Without errors the caches never change the decision. */
  lemma CachedEqualsUncached(chain: Chain, period: nat, run: seq<Caches>, calls: seq<Call>, i: nat)
    requires IsRun(chain, period, run, calls) && i < |calls| && calls[i].answers.signerIndex.Some?
    ensures ShouldMonitor(run[i], period, calls[i].now, calls[i].deposit, calls[i].answers).1
         == Uncached(calls[i].answers)
  {
    MonitoredExactly(chain, period, run, calls, i);
    assert Answering(chain, calls[i].deposit, calls[i].answers);
  }
}
