/**
 Key generation with retries. Pre-parameters may be shared with other members only once: they are kept
 in a box that is emptied before they are used, and replaced from a pool for the next attempt. The
 methods record their effects in the order they happen.
 */
module KeyGeneration {
  import opened Wrappers

  /** One set of pre-parameters; the pool never generates the same one twice. */
  type PreParams = nat

  type PublicKey = nat

  datatype Effect =
    | Draw(params: PreParams)
    | GenerateKey(params: PreParams, generated: Option<PublicKey>)
    | Snapshot(key: PublicKey, saved: bool)
    | Submit(key: PublicKey, accepted: bool)

  class Pool {
    var next: PreParams

    constructor ()
      ensures next == 0
    {
      next := 0;
    }

    method Get() returns (params: PreParams)
      modifies this
      ensures params == old(next) && next == old(next) + 1
    {
      params := next;
      next := next + 1;
    }
  }

  class Box {
    var params: Option<PreParams>

    constructor (params: PreParams)
      ensures this.params == Some(params)
    {
      this.params := Some(params);
    }

    method Content() returns (r: Result<PreParams, ()>)
      ensures r.Ok? <==> !IsEmpty()
      ensures r.Ok? ==> params == Some(r.value)
    {
      if IsEmpty() {
        return Err(());
      }
      return Ok(params.value);
    }

    predicate IsEmpty()
      reads this
    {
      params.None?
    }

    method DestroyContent()
      modifies this
      ensures IsEmpty()
    {
      params := None;
    }
  }

  /** Everything outside the client that decides one attempt; None and false stand for an error. */
  datatype Attempt = Attempt(
    active: Option<bool>,
    contextDone: bool,
    announcedMembers: Option<nat>,
    bridge: bool,
    initialized: bool,
    channel: bool,
    ready: bool,
    key: Option<PublicKey>,
    snapshot: bool,
    serialized: bool,
    submitted: bool)

  datatype Failure = KeepInactive | TimedOut | NoSnapshot | NotSerialized | NotSubmitted

  // ---- One threshold key generation ----

  /** The pre-parameters are about to be communicated. */
  predicate Starts(a: Attempt, members: nat) {
    members >= 2 && a.bridge && a.initialized && a.channel && a.ready
  }

  /** An empty box is an error, found before anything is initialised. */
  method GenerateThresholdSigner(a: Attempt, members: nat, box: Box)
    returns (signer: Option<PublicKey>, effects: seq<Effect>)
    modifies box
    ensures var starts := Starts(a, members) && old(box.params).Some?;
            && signer == (if starts then a.key else None)
            && effects == (if starts then [GenerateKey(old(box.params).value, a.key)] else [])
            && box.params == (if starts then None else old(box.params))
    ensures effects != [] || signer.Some? ==>
      members >= 2 && a.bridge && a.initialized && a.channel && a.ready && old(box.params).Some? && box.IsEmpty()
  {
    if members < 2 || !a.bridge {
      return None, [];
    }
    var content := box.Content();
    if content.Err? || !a.initialized || !a.channel || !a.ready {
      return None, [];
    }
    box.DestroyContent();
    return a.key, [GenerateKey(content.value, a.key)];
  }

  // ---- The retry loop ----

  predicate Generates(a: Attempt) {
    a.announcedMembers.Some? && Starts(a, a.announcedMembers.value) && a.key.Some?
  }

  predicate Retries(a: Attempt) {
    a.active.None? || (a.active.value && !a.contextDone && !Generates(a))
  }

  function Verdict(a: Attempt): Result<PublicKey, Failure>
    requires !Retries(a)
  {
    if !a.active.value then Err(KeepInactive)
    else if a.contextDone then Err(TimedOut)
    else if !a.snapshot then Err(NoSnapshot)
    else if !a.serialized then Err(NotSerialized)
    else if !a.submitted then Err(NotSubmitted)
    else Ok(a.key.value)
  }

  /** The first attempt that is not retried decides; None while all of them are. */
  function Decides(attempts: seq<Attempt>): (r: Option<Attempt>)
    ensures r.Some? ==> !Retries(r.value)
  {
    if attempts == [] then None
    else if Retries(attempts[0]) then Decides(attempts[1..])
    else Some(attempts[0])
  }

  /** Something failed that is worth another attempt. */
  predicate GoesOn(a: Attempt) {
    || a.active.None?
    || (&& a.active == Some(true) && !a.contextDone
        && (|| a.announcedMembers.None? || a.announcedMembers.value < 2
            || !a.bridge || !a.initialized || !a.channel || !a.ready || a.key.None?))
  }

  /** All attempts before `i` are repeated, and this one gives the result: each failure has its own cause. */
  predicate EndsWith(attempts: seq<Attempt>, i: nat, result: Result<PublicKey, Failure>)
    requires i < |attempts|
  {
    var a := attempts[i];
    var generated := a.active == Some(true) && !a.contextDone && !GoesOn(a);
    && (forall j :: 0 <= j < i ==> GoesOn(attempts[j]))
    && match result
       case Ok(key) => generated && a.key == Some(key) && a.snapshot && a.serialized && a.submitted
       case Err(KeepInactive) => a.active == Some(false)
       case Err(TimedOut) => a.active == Some(true) && a.contextDone
       case Err(NoSnapshot) => generated && !a.snapshot
       case Err(NotSerialized) => generated && a.snapshot && !a.serialized
       case Err(NotSubmitted) => generated && a.snapshot && a.serialized && !a.submitted
  }

  lemma {:induction false} DecidesExactly(attempts: seq<Attempt>)
    ensures Decides(attempts).Some? ==>
              exists i :: 0 <= i < |attempts| && EndsWith(attempts, i, Verdict(Decides(attempts).value))
    ensures Decides(attempts).None? ==> forall i :: 0 <= i < |attempts| ==> GoesOn(attempts[i])
  {
    if attempts != [] {
      if Retries(attempts[0]) {
        DecidesExactly(attempts[1..]);
        if Decides(attempts[1..]).Some? {
          var r := Verdict(Decides(attempts[1..]).value);
          var i :| 0 <= i < |attempts[1..]| && EndsWith(attempts[1..], i, r);
          assert forall j :: 0 < j < i + 1 ==> attempts[j] == attempts[1..][j - 1];
          assert EndsWith(attempts, i + 1, r);
        }
      } else {
        assert EndsWith(attempts, 0, Verdict(attempts[0]));
      }
    }
  }

  /** Each set of pre-parameters is used at most once, and was drawn before. */
  ghost predicate OneShot(log: seq<Effect>) {
    && (forall i, j :: 0 <= i < j < |log| ==>
          !(log[i].GenerateKey? && log[j].GenerateKey? && log[i].params == log[j].params))
    && (forall j :: 0 <= j < |log| && log[j].GenerateKey? ==> Draw(log[j].params) in log[..j])
  }

  /** A new set is drawn only after the one before it was used. */
  ghost predicate NothingWasted(log: seq<Effect>) {
    forall i, j :: 0 <= i < j < |log| && log[i].Draw? && log[j].Draw? ==> Uses(log[i..j], log[i].params)
  }

  ghost predicate Uses(log: seq<Effect>, params: PreParams) {
    exists k :: 0 <= k < |log| && log[k].GenerateKey? && log[k].params == params
  }

  /** Every submission follows a successful snapshot of the signer that was generated with this key. */
  ghost predicate Snapshotted(log: seq<Effect>) {
    && (forall i :: 0 <= i < |log| && log[i].Submit? ==> Snapshot(log[i].key, true) in log[..i])
    && (forall i :: 0 <= i < |log| && log[i].Snapshot? ==> Generated(log[..i], log[i].key))
  }

  ghost predicate Generated(log: seq<Effect>, key: PublicKey) {
    exists k :: 0 <= k < |log| && log[k].GenerateKey? && log[k].generated == Some(key)
  }

  // The attempts draw and use in turn; an odd log ends with a set that is drawn and still unused.

  predicate InTurn(e: Effect, first: PreParams, i: nat) {
    if i % 2 == 0 then e == Draw(first + i / 2) else e.GenerateKey? && e.params == first + i / 2
  }

  predicate DrawnInTurn(log: seq<Effect>, first: PreParams) {
    forall i :: 0 <= i < |log| ==> InTurn(log[i], first, i)
  }

  /** What the last, successful attempt adds to the log. */
  predicate Publishes(tail: seq<Effect>, key: PublicKey) {
    || tail == []
    || tail == [Snapshot(key, false)]
    || tail == [Snapshot(key, true)]
    || tail == [Snapshot(key, true), Submit(key, false)]
    || tail == [Snapshot(key, true), Submit(key, true)]
  }

  lemma DrawnInTurnIsOneShot(log: seq<Effect>, tail: seq<Effect>, first: PreParams)
    requires DrawnInTurn(log, first) && forall e :: e in tail ==> e.Snapshot? || e.Submit?
    ensures OneShot(log + tail) && NothingWasted(log + tail)
  {
    var all := log + tail;
    forall i | 0 <= i < |all| ensures i < |log| ==> InTurn(all[i], first, i)
      ensures i >= |log| ==> all[i] in tail && !all[i].Draw? && !all[i].GenerateKey? {}
    forall j | 0 <= j < |all| && all[j].GenerateKey? ensures Draw(all[j].params) in all[..j] {
      assert InTurn(all[j], first, j) && InTurn(all[j - 1], first, j - 1);
      assert all[..j][j - 1] == Draw(all[j].params);
    }
    forall i, j | 0 <= i < j < |all| && all[i].Draw? && all[j].Draw? ensures Uses(all[i..j], all[i].params) {
      assert InTurn(all[i], first, i) && InTurn(all[j], first, j) && InTurn(all[i + 1], first, i + 1);
      assert all[i..j][1] == all[i + 1];
    }
    forall i, j | 0 <= i < j < |all| && all[i].GenerateKey? && all[j].GenerateKey?
      ensures all[i].params != all[j].params
    {
      assert InTurn(all[i], first, i) && InTurn(all[j], first, j);
    }
  }

  lemma PublishedIsSnapshotted(log: seq<Effect>, tail: seq<Effect>, first: PreParams, key: PublicKey)
    requires DrawnInTurn(log, first) && Publishes(tail, key)
    requires tail != [] ==> Generated(log, key)
    ensures Snapshotted(log + tail)
  {
    var all := log + tail;
    forall i | 0 <= i < |log| ensures !all[i].Submit? && !all[i].Snapshot? {
      assert InTurn(all[i], first, i);
    }
    if tail != [] {
      var k :| 0 <= k < |log| && log[k].GenerateKey? && log[k].generated == Some(key);
      assert all[..|log|][k] == log[k];
      if |tail| == 2 {
        assert all[..|log| + 1][|log|] == Snapshot(key, true);
      }
    }
  }

  predicate BetweenAttempts(log: seq<Effect>, first: PreParams, next: PreParams, content: Option<PreParams>) {
    && DrawnInTurn(log, first)
    && next == first + (|log| + 1) / 2
    && content == (if |log| % 2 == 1 then Some(first + |log| / 2) else None)
  }

  lemma AfterDraw(log: seq<Effect>, first: PreParams, next: PreParams)
    requires BetweenAttempts(log, first, next, None)
    ensures BetweenAttempts(log + [Draw(next)], first, next + 1, Some(next))
  {
  }

  lemma AfterUse(log: seq<Effect>, first: PreParams, next: PreParams, params: PreParams, key: Option<PublicKey>)
    requires BetweenAttempts(log, first, next, Some(params))
    ensures BetweenAttempts(log + [GenerateKey(params, key)], first, next, None)
    ensures key.Some? ==> Generated(log + [GenerateKey(params, key)], key.value)
  {
    assert (log + [GenerateKey(params, key)])[|log|] == GenerateKey(params, key);
  }

  /** One pass of the loop; `tail` is what a successful generation adds at the end. */
  method TryToGenerate(pool: Pool, preParamsBox: Box, a: Attempt, ghost log: seq<Effect>, ghost first: PreParams)
    returns (verdict: Option<Result<PublicKey, Failure>>, box: Box, ghost log': seq<Effect>, ghost tail: seq<Effect>)
    requires BetweenAttempts(log, first, pool.next, preParamsBox.params)
    modifies pool, preParamsBox
    ensures box == preParamsBox || fresh(box)
    ensures BetweenAttempts(log', first, pool.next, box.params)
    ensures verdict == if Retries(a) then None else Some(Verdict(a))
    ensures tail == [] || (Generates(a) && Publishes(tail, a.key.value) && Generated(log', a.key.value))
    ensures tail != [] && tail[|tail| - 1] == Submit(a.key.value, true) <==> verdict.Some? && verdict.value.Ok?
  {
    hide BetweenAttempts, Generated;
    box, log', tail := preParamsBox, log, [];
    if a.active.None? {
      return None, box, log', tail;
    }
    if !a.active.value {
      return Some(Err(KeepInactive)), box, log', tail;
    }
    if box.IsEmpty() {
      AfterDraw(log, first, pool.next);
      var params := pool.Get();
      box := new Box(params);
      log' := log + [Draw(params)];
    }
    if a.contextDone {
      return Some(Err(TimedOut)), box, log', tail;
    }
    if a.announcedMembers.None? {
      return None, box, log', tail;
    }
    AfterUse(log', first, pool.next, box.params.value, a.key);
    var signer, effects := GenerateThresholdSigner(a, a.announcedMembers.value, box);
    assert log' + [] == log';
    log' := log' + effects;
    if signer.None? {
      return None, box, log', tail;
    }
    tail := [Snapshot(signer.value, a.snapshot)];
    if !a.snapshot {
      return Some(Err(NoSnapshot)), box, log', tail;
    }
    if !a.serialized {
      return Some(Err(NotSerialized)), box, log', tail;
    }
    tail := tail + [Submit(signer.value, a.submitted)];
    if !a.submitted {
      return Some(Err(NotSubmitted)), box, log', tail;
    }
    return Some(Ok(signer.value)), box, log', tail;
  }

  /** Attempts until one is not retried or the given ones run out, when the loop is still running. */
  method GenerateSignerForKeep(pool: Pool, attempts: seq<Attempt>)
    returns (result: Option<Result<PublicKey, Failure>>, ghost log: seq<Effect>)
    modifies pool
    ensures result == if Decides(attempts).Some? then Some(Verdict(Decides(attempts).value)) else None
    ensures OneShot(log) && NothingWasted(log) && Snapshotted(log)
    ensures forall key: PublicKey :: result == Some(Ok(key)) <==> Submit(key, true) in log
    ensures result.Some? ==> exists i :: 0 <= i < |attempts| && EndsWith(attempts, i, result.value)
    ensures result.None? ==> forall i :: 0 <= i < |attempts| ==> GoesOn(attempts[i])
    // sets used by different calls on one pool differ as well
    ensures forall e :: e in log && e.GenerateKey? ==> old(pool.next) <= e.params < pool.next
  {
    DecidesExactly(attempts);
    ghost var first := pool.next;
    var params := pool.Get();
    var preParamsBox := new Box(params);
    log := [Draw(first)];
    var i := 0;
    while i < |attempts|
      invariant 0 <= i <= |attempts|
      invariant Decides(attempts) == Decides(attempts[i..])
      invariant BetweenAttempts(log, first, pool.next, preParamsBox.params)
      invariant fresh(preParamsBox)
    {
      ghost var tail;
      result, preParamsBox, log, tail := TryToGenerate(pool, preParamsBox, attempts[i], log, first);
      if result.Some? {
        Finish(log, tail, first, if tail == [] then 0 else attempts[i].key.value);
        return result, log + tail;
      }
      i := i + 1;
    }
    Finish(log, [], first, 0);
    return None, log;
  }

  lemma Finish(log: seq<Effect>, tail: seq<Effect>, first: PreParams, key: PublicKey)
    requires DrawnInTurn(log, first) && Publishes(tail, key)
    requires tail != [] ==> Generated(log, key)
    ensures OneShot(log + tail) && NothingWasted(log + tail) && Snapshotted(log + tail)
    ensures forall k: PublicKey ::
              Submit(k, true) in log + tail <==> k == key && tail == [Snapshot(key, true), Submit(key, true)]
    ensures forall e :: e in log + tail && e.GenerateKey? ==> first <= e.params < first + (|log| + 1) / 2
    ensures log + [] == log
  {
    DrawnInTurnIsOneShot(log, tail, first);
    PublishedIsSnapshotted(log, tail, first, key);
    LogEntries(log, first);
    hide OneShot, NothingWasted, Snapshotted, DrawnInTurn, Generated;
    forall e ensures e in log + tail <==> e in log || e in tail {}
    assert log + [] == log;
  }

  lemma LogEntries(log: seq<Effect>, first: PreParams)
    requires DrawnInTurn(log, first)
    ensures forall e :: e in log ==> e.Draw? || e.GenerateKey?
    ensures forall e :: e in log && e.GenerateKey? ==> first <= e.params < first + (|log| + 1) / 2
  {
    forall e | e in log
      ensures e.Draw? || e.GenerateKey?
      ensures e.GenerateKey? ==> first <= e.params < first + (|log| + 1) / 2
    {
      var i :| 0 <= i < |log| && log[i] == e;
      assert InTurn(log[i], first, i);
    }
  }

  /**
   Once the context is done, an attempt ends the loop exactly when the chain says whether the keep is
   active: while that call fails, generation is retried past the deadline.
   */
  lemma {:induction false} DeadlineEndsGenerationExactly(attempts: seq<Attempt>)
    requires forall i :: 0 <= i < |attempts| ==> attempts[i].contextDone
    ensures Decides(attempts).Some? <==> exists i :: 0 <= i < |attempts| && attempts[i].active.Some?
  {
    if attempts != [] {
      DeadlineEndsGenerationExactly(attempts[1..]);
      if Retries(attempts[0]) && Decides(attempts[1..]).Some? {
        var i :| 0 <= i < |attempts[1..]| && attempts[1..][i].active.Some?;
        assert attempts[i + 1].active.Some?;
      }
    }
  }

  // ---- Watching the submission ----

  const MAX_PUBKEY_CHECKS_COUNT := 2

  /** What happens next while the submission is watched, with the chain's answers to that check. */
  datatype Event =
    | Conflict
    | Check(onChain: Option<bool>, currentBlock: bool, confirmed: Option<bool>, resubmitted: bool)

  /** The check found no confirmed key on the chain. */
  predicate Unconfirmed(e: Event) {
    e.Check? && e.onChain.Some? && (!e.onChain.value || (e.currentBlock && e.confirmed == Some(false)))
  }

  predicate Confirmed(e: Event) {
    e.Check? && e.onChain == Some(true) && e.currentBlock && e.confirmed == Some(true)
  }

  /** The resubmissions of the key, after `checks` checks. */
  function Resubmissions(key: PublicKey, events: seq<Event>, checks: nat): seq<Effect> {
    if events == [] || events[0].Conflict? || checks == MAX_PUBKEY_CHECKS_COUNT || Confirmed(events[0]) then []
    else if !Unconfirmed(events[0]) then Resubmissions(key, events[1..], checks + 1)
    else if !events[0].resubmitted then [Submit(key, false)]
    else [Submit(key, true)] + Resubmissions(key, events[1..], checks + 1)
  }

  /** The check read the chain and found no key, or one that is not there any more after the confirmations. */
  predicate NeedsKey(e: Event) {
    && e.Check?
    && (e.onChain == Some(false) || (e.onChain == Some(true) && e.currentBlock && e.confirmed == Some(false)))
  }

  /** Nothing is submitted after a conflict, a confirmed key, or a resubmission that failed. */
  predicate EndsWatch(e: Event) {
    || e.Conflict?
    || (e.onChain == Some(true) && e.currentBlock && e.confirmed == Some(true))
    || (NeedsKey(e) && !e.resubmitted)
  }

  /** What the event at this place adds to the log. */
  function SubmissionAt(key: PublicKey, events: seq<Event>, i: nat): seq<Effect> {
    if i < |events| && (forall j :: 0 <= j < i ==> !EndsWatch(events[j])) && NeedsKey(events[i])
    then [Submit(key, events[i].resubmitted)] else []
  }

  /** Only the first two events can cause a submission, each under its own condition. */
  lemma ResubmissionsExactly(key: PublicKey, events: seq<Event>)
    ensures Resubmissions(key, events, 0) == SubmissionAt(key, events, 0) + SubmissionAt(key, events, 1)
  {
    if |events| >= 2 {
      assert Resubmissions(key, events[1..], 1)
          == if EndsWatch(events[1]) && !NeedsKey(events[1]) then []
             else if NeedsKey(events[1]) then [Submit(key, events[1].resubmitted)] else [];
    } else if |events| == 1 {
      assert Resubmissions(key, events[1..], 1) == [];
    }
  }

  method MonitorKeepPublicKeySubmission(key: PublicKey, events: seq<Event>) returns (log: seq<Effect>)
    ensures log == Resubmissions(key, events, 0)
    ensures log == SubmissionAt(key, events, 0) + SubmissionAt(key, events, 1)
  {
    ResubmissionsExactly(key, events);
    log := [];
    var pubkeyChecksCounter := 0;
    var i := 0;
    while i < |events|
      invariant 0 <= i <= |events|
      invariant pubkeyChecksCounter <= MAX_PUBKEY_CHECKS_COUNT
      invariant log + Resubmissions(key, events[i..], pubkeyChecksCounter) == Resubmissions(key, events, 0)
    {
      var e := events[i];
      i := i + 1;
      if e.Conflict? {
        return;
      }
      pubkeyChecksCounter := pubkeyChecksCounter + 1;
      if pubkeyChecksCounter > MAX_PUBKEY_CHECKS_COUNT {
        return;
      }
      if e.onChain.None? {
        continue;
      }
      if e.onChain.value {
        if !e.currentBlock || e.confirmed.None? {
          continue;
        }
        if e.confirmed.value {
          return;
        }
      }
      log := log + [Submit(key, e.resubmitted)];
      if !e.resubmitted {
        return;
      }
    }
  }

  /**
   The key is resubmitted at most twice, and nothing else is submitted; the "three times" of the code's
   comment can count the first submission.
   */
  lemma {:induction false} AtMostTwoResubmissions(key: PublicKey, events: seq<Event>, checks: nat)
    requires checks <= MAX_PUBKEY_CHECKS_COUNT
    ensures |Resubmissions(key, events, checks)| <= MAX_PUBKEY_CHECKS_COUNT - checks
    ensures forall e :: e in Resubmissions(key, events, checks) ==> e in {Submit(key, true), Submit(key, false)}
    ensures Resubmissions(key, events, checks)
         == Resubmissions(key, if |events| <= MAX_PUBKEY_CHECKS_COUNT - checks then events
                               else events[..MAX_PUBKEY_CHECKS_COUNT - checks], checks)
    decreases events
  {
    var left := MAX_PUBKEY_CHECKS_COUNT - checks;
    if events != [] && checks < MAX_PUBKEY_CHECKS_COUNT {
      AtMostTwoResubmissions(key, events[1..], checks + 1);
      if |events| > left {
        assert events[..left][1..] == events[1..][..left - 1];
      }
    }
  }

  /** Watching only adds submissions of a key whose snapshot was taken. */
  lemma WatchedSubmissionsAreSnapshotted(log: seq<Effect>, key: PublicKey, events: seq<Event>)
    requires Snapshotted(log) && Submit(key, true) in log
    ensures Snapshotted(log + Resubmissions(key, events, 0))
  {
    hide Resubmissions, Snapshotted;
    AtMostTwoResubmissions(key, events, 0);
    MoreSubmissions(log, key, Resubmissions(key, events, 0));
  }

  lemma MoreSubmissions(log: seq<Effect>, key: PublicKey, more: seq<Effect>)
    requires Snapshotted(log) && Submit(key, true) in log
    requires forall e :: e in more ==> e in {Submit(key, true), Submit(key, false)}
    ensures Snapshotted(log + more)
  {
    hide Generated;
    var all := log + more;
    var n :| 0 <= n < |log| && log[n] == Submit(key, true);
    forall i | |log| <= i < |all| ensures all[i].Submit? && all[i].key == key {
      assert all[i] == more[i - |log|] && all[i] in more;
    }
    assert Snapshot(key, true) in log[..n];
    forall i | 0 <= i < |all| && all[i].Submit? ensures Snapshot(all[i].key, true) in all[..i] {
      if i < |log| {
        assert all[..i] == log[..i];
      } else {
        assert all[..i][..n] == log[..n];
      }
    }
    forall i | 0 <= i < |all| && all[i].Snapshot? ensures Generated(all[..i], all[i].key) {
      assert i < |log| && all[..i] == log[..i];
    }
  }
}
