/**
 The client's two redemption actions run against the local chain. The client works out the
 next output values from past events; the chain works them out again from its own state.
 */
module RedemptionFee {
  import opened Wrappers
  import opened LittleEndian
  import opened LocalChain

  /** The previous and the new output value the client derives from the events it sees. */
  function BumpOutputs(events: seq<RedemptionRequested>): Result<(int, int), Failure> {
    if events == [] then Err(NoEvents)
    else
      var latest := events[|events| - 1];
      if latest.utxoValue.None? then Err(NilValue)
      else
        var step := if |events| == 1 then latest.requestedFee
                    else latest.requestedFee - events[|events| - 2].requestedFee;
        var previous := latest.utxoValue.value - latest.requestedFee;
        Ok((previous, previous - step))
  }

  /** The whole action: derive the outputs, encode them, ask the chain to accept them. */
  function Bump(w: World, c: Config, seen: seq<RedemptionRequested>, digest: Digest, block: Option<nat>): Outcome {
    match BumpOutputs(seen)
    case Err(failure) => Outcome(w, Some(failure))
    case Ok((previous, next)) =>
      IncreaseFee(w, c, ToLittleEndianBytes(previous), ToLittleEndianBytes(next), digest, block)
  }

  function SignatureAction(w: World): Outcome {
    if w.deposit.events == [] then Outcome(w, Some(NoEvents))
    else if w.keep.submitted == [] then Outcome(w, Some(NoSignatureForDigest))
    else
      var digest := w.deposit.events[|w.deposit.events| - 1].digest;
      var latest := w.keep.submitted[|w.keep.submitted| - 1];
      if latest.digest != digest then Outcome(w, Some(NoSignatureForDigest))
      else ProvideSignature(w, Signature((27 + latest.recoveryID as int) % 256, latest.r, latest.s))
  }

  /** An action that succeeded on the chain still fails if the deposit's new state is not confirmed. */
  function Confirmed(o: Outcome, confirmed: bool): Outcome {
    if o.failure == None && !confirmed then Outcome(o.world, Some(NotConfirmed)) else o
  }

  /** actFn of the redemption signature monitoring. */
  method RedemptionSignatureAction(handle: TBTCLocalChain, depositAddress: string, startBlock: nat, confirmed: bool)
    returns (failure: Option<Failure>)
    requires handle.Valid()
    modifies handle.deposits.Values
    ensures handle.Valid() && handle.Others(depositAddress) == old(handle.Others(depositAddress))
    ensures depositAddress !in handle.deposits ==> failure == Some(NoSuchDeposit)
    ensures depositAddress in handle.deposits && "ProvideRedemptionSignature" !in handle.alwaysFailingTransactions ==>
      Outcome(handle.deposits[depositAddress].Value(), failure) ==
      Confirmed(SignatureAction(old(handle.deposits[depositAddress].Value())), confirmed)
    ensures depositAddress in handle.deposits && "ProvideRedemptionSignature" in handle.alwaysFailingTransactions ==>
      && failure.Some?
      && handle.deposits[depositAddress].Value() == old(handle.deposits[depositAddress].Value())
  {
    var fetched := handle.PastDepositRedemptionRequestedEvents(startBlock, depositAddress);
    if fetched.Err? {
      return Some(fetched.error);
    }
    var events := fetched.value;
    if |events| == 0 {
      return Some(NoEvents);
    }
    var keep := handle.deposits[depositAddress].keep;
    var latestRequest := events[|events| - 1];
    var signatures := keep.PastSignatureSubmittedEvents(latestRequest.blockNumber);
    if |signatures| == 0 {
      return Some(NoSignatureForDigest);
    }
    var latestSignature := signatures[|signatures| - 1];
    if latestSignature.digest != latestRequest.digest {
      return Some(NoSignatureForDigest);
    }
    failure := handle.ProvideRedemptionSignature(
      depositAddress, (27 + latestSignature.recoveryID as int) % 256, latestSignature.r, latestSignature.s);
    if failure == None && !confirmed {
      failure := Some(NotConfirmed);
    }
  }

  /** actFn of the redemption proof monitoring. */
  method RedemptionProofAction(
    handle: TBTCLocalChain, depositAddress: string, startBlock: nat, randomDigest: Digest, block: Option<nat>,
    confirmed: bool)
    returns (failure: Option<Failure>)
    requires handle.Valid()
    modifies handle.deposits.Values, set d | d in handle.deposits.Values :: d.keep
    ensures handle.Valid() && handle.Others(depositAddress) == old(handle.Others(depositAddress))
    ensures depositAddress !in handle.deposits ==> failure == Some(NoSuchDeposit)
    ensures depositAddress in handle.deposits && "IncreaseRedemptionFee" !in handle.alwaysFailingTransactions ==>
      Outcome(handle.deposits[depositAddress].Value(), failure) ==
      Confirmed(Bump(old(handle.deposits[depositAddress].Value()), handle.config,
                     old(handle.deposits[depositAddress].redemptionRequestedEvents), randomDigest, block), confirmed)
    ensures depositAddress in handle.deposits && "IncreaseRedemptionFee" in handle.alwaysFailingTransactions ==>
      && failure.Some?
      && handle.deposits[depositAddress].Value() == old(handle.deposits[depositAddress].Value())
  {
    var fetched := handle.PastDepositRedemptionRequestedEvents(startBlock, depositAddress);
    if fetched.Err? {
      return Some(fetched.error);
    }
    var events := fetched.value;
    if |events| == 0 {
      return Some(NoEvents);
    }
    var latest := events[|events| - 1];
    if latest.utxoValue.None? {
      return Some(NilValue);
    }
    var feeBumpStep := 0;
    if |events| == 1 {
      feeBumpStep := latest.requestedFee;
    } else {
      feeBumpStep := latest.requestedFee - events[|events| - 2].requestedFee;
    }
    var previousOutputValue := latest.utxoValue.value - latest.requestedFee;
    var newOutputValue := previousOutputValue - feeBumpStep;
    failure := handle.IncreaseRedemptionFee(
      depositAddress, ToLittleEndianBytes(previousOutputValue), ToLittleEndianBytes(newOutputValue),
      randomDigest, block);
    if failure == None && !confirmed {
      failure := Some(NotConfirmed);
    }
  }

  // ---- What every call keeps ----

  /** Until a redemption is requested a deposit holds no trace of one. */
  ghost predicate NotRequested(w: World, c: Config)
    requires c.Valid()
  {
    && w.deposit.utxoValue in {None, Some(c.Utxo())}
    && (w.deposit.digest == 0 ==>
          w.deposit.events == [] && w.deposit.fee == None && w.deposit.signature == None)
  }

  /** The ladder: the n-th event asks for n times the initial fee, and the deposit is on the last rung. */
  ghost predicate Synced(w: World, c: Config)
    requires c.Valid()
  {
    var d := w.deposit;
    && d.events != []
    && (forall i :: 0 <= i < |d.events| ==>
          d.events[i].requestedFee == (i + 1) * c.initialFee && d.events[i].utxoValue == Some(c.Utxo()))
    && d.fee == Some(|d.events| * c.initialFee)
    && d.utxoValue == Some(c.Utxo())
    && d.digest != 0
    && d.digest == d.events[|d.events| - 1].digest == w.keep.latestDigest
    && w.keep.publicKey != 0
  }

  /** A first request on a funded deposit puts it on the ladder exactly when the call succeeds. */
  lemma RequestStartsLadder(w: World, c: Config, digest: Digest, block: Option<nat>)
    requires c.Valid() && NotRequested(w, c)
    requires w.deposit.digest == 0 && digest != 0 && w.deposit.utxoValue.Some?
    ensures Synced(Redeem(w, c, digest, block).world, c) <==> Redeem(w, c, digest, block).failure == None
  {
  }

  /** The chain's two value checks, on the decoded output values of a fee increase. */
  predicate PassesChecks(w: World, c: Config, previousBytes: seq<byte>, newBytes: seq<byte>)
    requires |previousBytes| == |newBytes| == 8
  {
    && w.deposit.utxoValue.Some? && w.deposit.fee.Some?
    && UtxoValueBytesToUint32(previousBytes) == w.deposit.utxoValue.value - w.deposit.fee.value
    && UtxoValueBytesToUint32(previousBytes) - UtxoValueBytesToUint32(newBytes) == c.initialFee
  }

  /** The block number cannot be read just when a fee increase has passed everything else. */
  predicate LosesEvent(w: World, c: Config, op: Op)
    requires op.IncreaseFeeOp? ==> |op.previousBytes| == |op.newBytes| == 8
  {
    && op.IncreaseFeeOp? && op.block.None?
    && w.deposit.signature.Some?
    && PassesChecks(w, c, op.previousBytes, op.newBytes)
  }

  /**
   On the ladder, a call leaves it exactly when it is a fee increase on a signed deposit whose values
   pass both checks, made while the block number cannot be read: the fee is then one rung above the
   last event.
   */
  lemma StepKeepsLadder(w: World, c: Config, op: Op)
    requires c.Valid() && op.Valid() && Synced(w, c) && c.initialFee > 0
    ensures Synced(Step(w, c, op).world, c) <==> !LosesEvent(w, c, op)
    ensures LosesEvent(w, c, op) <==> Step(w, c, op).failure == Some(BlockCounterFailed)
  {
    var o := Step(w, c, op);
    var n := |w.deposit.events|;
    if op.IncreaseFeeOp? && o.failure in {None, Some(BlockCounterFailed)} {
      NextRung(n, c.initialFee);
      assert o.world.deposit.fee == Some((n + 1) * c.initialFee);
      if o.failure == None {
        assert o.world.deposit.events[..n] == w.deposit.events;
      }
    }
  }

  lemma NextRung(n: nat, fee: int)
    ensures n * fee + fee == (n + 1) * fee
  {
  }

  lemma {:induction false} RunKeepsLadder(w: World, c: Config, ops: seq<Op>)
    requires c.Valid() && ValidOps(ops) && Synced(w, c) && c.initialFee > 0
    requires forall i :: 0 <= i < |ops| ==> ops[i].BlockKnown()
    ensures Synced(Run(w, c, ops), c)
    decreases |ops|
  {
    if ops != [] {
      StepKeepsLadder(w, c, ops[0]);
      RunKeepsLadder(Step(w, c, ops[0]).world, c, ops[1..]);
    }
  }

  lemma {:induction false} RunKeepsNotRequested(w: World, c: Config, ops: seq<Op>)
    requires c.Valid() && ValidOps(ops) && NotRequested(w, c)
    ensures NotRequested(Run(w, c, ops), c)
    decreases |ops|
  {
    if ops != [] {
      RunKeepsNotRequested(Step(w, c, ops[0]).world, c, ops[1..]);
    }
  }

  /**
   The whole life of a deposit: whatever happened before, once a redemption request succeeds on a
   funded deposit, every later run in which the block counter answers stays on the ladder.
   */
  lemma FeeLadder(c: Config, before: seq<Op>, request: Op, after: seq<Op>)
    requires c.Valid() && c.initialFee > 0 && ValidOps(before) && request.Valid() && ValidOps(after)
    requires request.RedeemOp?
    requires Run(NEW_WORLD, c, before).deposit.utxoValue.Some?
    requires Step(Run(NEW_WORLD, c, before), c, request).failure == None
    requires forall i :: 0 <= i < |after| ==> after[i].BlockKnown()
    ensures Synced(Run(Step(Run(NEW_WORLD, c, before), c, request).world, c, after), c)
  {
    RunKeepsNotRequested(NEW_WORLD, c, before);
    var w := Run(NEW_WORLD, c, before);
    RequestStartsLadder(w, c, request.digest, request.block);
    RunKeepsLadder(Step(w, c, request).world, c, after);
  }

  // ---- Every increase needs a signature of its own ----

  /** The state before call `i` of a run. */
  function StateAt(w: World, c: Config, ops: seq<Op>, i: nat): World
    requires c.Valid() && ValidOps(ops) && i <= |ops|
  {
    if i == 0 then w else Step(StateAt(w, c, ops, i - 1), c, ops[i - 1]).world
  }

  ghost predicate Accepted(w: World, c: Config, ops: seq<Op>, i: nat)
    requires c.Valid() && ValidOps(ops) && i < |ops|
  {
    Step(StateAt(w, c, ops, i), c, ops[i]).failure == None
  }

  lemma SignatureAfterCall(w: World, c: Config, op: Op)
    requires c.Valid() && op.Valid()
    ensures w.deposit.signature == None && Step(w, c, op).world.deposit.signature.Some? ==>
              op.ProvideSignatureOp? && Step(w, c, op).failure == None
    ensures op.IncreaseFeeOp? && Step(w, c, op).failure == None ==>
              w.deposit.signature.Some? && Step(w, c, op).world.deposit.signature == None
  {
  }

  lemma {:induction false} SignatureWasProvided(w: World, c: Config, ops: seq<Op>, i: nat, j: nat)
    requires c.Valid() && ValidOps(ops) && i <= j <= |ops|
    requires StateAt(w, c, ops, i).deposit.signature == None && StateAt(w, c, ops, j).deposit.signature.Some?
    ensures exists k :: i <= k < j && ops[k].ProvideSignatureOp? && Accepted(w, c, ops, k)
  {
    hide Step;
    SignatureAfterCall(StateAt(w, c, ops, j - 1), c, ops[j - 1]);
    if StateAt(w, c, ops, j - 1).deposit.signature.Some? {
      SignatureWasProvided(w, c, ops, i, j - 1);
    } else {
      assert Accepted(w, c, ops, j - 1);
    }
  }

  /** Over every run of calls: between two accepted fee increases a signature was provided and accepted. */
  lemma IncreasesAreSignedBetween(w: World, c: Config, ops: seq<Op>, i: nat, j: nat)
    requires c.Valid() && ValidOps(ops) && i < j < |ops|
    requires ops[i].IncreaseFeeOp? && Accepted(w, c, ops, i) && ops[j].IncreaseFeeOp? && Accepted(w, c, ops, j)
    ensures exists k :: i < k < j && ops[k].ProvideSignatureOp? && Accepted(w, c, ops, k)
  {
    hide Step;
    SignatureAfterCall(StateAt(w, c, ops, i), c, ops[i]);
    SignatureAfterCall(StateAt(w, c, ops, j), c, ops[j]);
    SignatureWasProvided(w, c, ops, i + 1, j);
  }

  // ---- When the chain accepts the client's numbers ----

  /**
   For a client that sees the events from index `from` on: with two events in view, or with the
   first one, the bump is accepted exactly while the next fee still fits in the output. With one
   later event in view the client takes the whole fee for the step, and only a coincidence of the
   absolute value taken by the encoder can make the chain accept it.
   */
  ghost predicate BumpFits(c: Config, n: nat, from: nat)
    requires c.Valid()
  {
    if n - from >= 2 || n == 1 then (n + 1) * c.initialFee <= c.Utxo()
    else 2 * c.Utxo() == (3 * n + 1) * c.initialFee
  }

  lemma BumpAcceptedExactly(w: World, c: Config, from: nat, digest: Digest, number: nat)
    requires c.Valid() && Synced(w, c) && c.initialFee > 0 && w.deposit.signature.Some?
    requires from < |w.deposit.events| && digest != 0
    ensures var n := |w.deposit.events|;
            var o := Bump(w, c, w.deposit.events[from..], digest, Some(number));
            if BumpFits(c, n, from) then
              && o.failure == None
              && Synced(o.world, c)
              && |o.world.deposit.events| == n + 1
              && o.world.deposit.fee == Some((n + 1) * c.initialFee)
            else
              o.failure.Some? && o.world == w
  {
    var n := |w.deposit.events|;
    var paid := n * c.initialFee;
    var step := if n - from >= 2 || n == 1 then c.initialFee else paid;
    hide BumpOutputs, ChainAccepts, Synced, IncreaseFee, BumpFits;
    OutputsSeen(w, c, from);
    ViewAccepted(c, n, from);
    AcceptedStep(w, c, c.Utxo() - paid, c.Utxo() - paid - step, digest, number);
  }

  lemma ThreeLadders(n: nat, f0: nat)
    ensures (3 * n + 1) * f0 == 3 * (n * f0) + f0
  {
  }

  lemma ViewAccepted(c: Config, n: nat, from: nat)
    requires c.Valid() && c.initialFee > 0 && from < n
    ensures var paid := n * c.initialFee;
            var step := if n - from >= 2 || n == 1 then c.initialFee else paid;
            BumpFits(c, n, from) <==>
            ChainAccepts(c.Utxo() - paid, c.Utxo() - paid - step, c.Utxo() - paid, c.initialFee)
  {
    hide ChainAccepts;
    var f0, paid: nat := c.initialFee, n * c.initialFee;
    if n - from >= 2 || n == 1 {
      NextRung(n, f0);
      FullViewAccepted(c.Utxo(), paid, f0);
    } else {
      LargerStep(n, f0);
      SingleEventAccepted(c.Utxo(), paid, f0);
      ThreeLadders(n, f0);
    }
  }

  /** The outputs the client derives on the ladder. */
  lemma OutputsSeen(w: World, c: Config, from: nat)
    requires c.Valid() && Synced(w, c) && from < |w.deposit.events|
    ensures var n := |w.deposit.events|;
            var paid := n * c.initialFee;
            var step := if n - from >= 2 || n == 1 then c.initialFee else paid;
            BumpOutputs(w.deposit.events[from..]) == Ok((c.Utxo() - paid, c.Utxo() - paid - step))
  {
    var n := |w.deposit.events|;
    var seen := w.deposit.events[from..];
    assert seen[|seen| - 1] == w.deposit.events[n - 1];
    if |seen| >= 2 {
      assert seen[|seen| - 2] == w.deposit.events[n - 2];
      NextRung(n - 1, c.initialFee);
    }
  }

  /** Both checks of the chain, on what is left of the client's numbers after the codec. */
  ghost predicate ChainAccepts(previous: int, next: int, expectedPrevious: int, f0: int) {
    Low32(previous) == expectedPrevious && Low32(previous) as int - Low32(next) == f0
  }

  lemma AcceptedStep(w: World, c: Config, previous: int, next: int, digest: Digest, number: nat)
    requires c.Valid() && Synced(w, c) && c.initialFee > 0 && w.deposit.signature.Some? && digest != 0
    ensures var n := |w.deposit.events|;
            var o := IncreaseFee(w, c, ToLittleEndianBytes(previous), ToLittleEndianBytes(next), digest, Some(number));
            if ChainAccepts(previous, next, c.Utxo() - n * c.initialFee, c.initialFee) then
              && o.failure == None
              && Synced(o.world, c)
              && |o.world.deposit.events| == n + 1
              && o.world.deposit.fee == Some((n + 1) * c.initialFee)
            else
              o.failure.Some? && o.world == w
  {
    var op := IncreaseFeeOp(ToLittleEndianBytes(previous), ToLittleEndianBytes(next), digest, Some(number));
    StepKeepsLadder(w, c, op);
    CodecKeepsLow32Bits(previous);
    CodecKeepsLow32Bits(next);
    NextRung(|w.deposit.events|, c.initialFee);
  }

  lemma FullViewAccepted(utxo: nat, paid: nat, f0: nat)
    requires utxo < TWO_TO_THE_32 && f0 > 0
    ensures ChainAccepts(utxo - paid, utxo - paid - f0, utxo - paid, f0) <==> paid + f0 <= utxo
  {
  }

  lemma SingleEventAccepted(utxo: nat, paid: nat, f0: nat)
    requires utxo < TWO_TO_THE_32 && f0 > 0 && paid > f0
    ensures ChainAccepts(utxo - paid, utxo - paid - paid, utxo - paid, f0) <==> 2 * utxo == 3 * paid + f0
  {
  }

  lemma LargerStep(n: nat, fee: nat)
    requires n > 1 && fee > 0
    ensures n * fee > fee
  {
  }

  // ---- The redemption signature ----

  /**
   Once the keep has signed the latest request, the client's action leaves that very signature on the
   deposit, or the one it already had, and the deposit stays on the ladder.
   */
  lemma SignedRequestIsProvided(w: World, c: Config, r: nat, s: nat, recoveryID: byte)
    requires c.Valid() && Synced(w, c)
    ensures var o := SignatureAction(SubmitSignature(w, r, s, recoveryID).world);
            && (o.failure == None <==> w.deposit.signature.None?)
            && o.world.deposit.signature
               == (if w.deposit.signature.Some? then w.deposit.signature
                   else Some(Signature((27 + recoveryID as int) % 256, r, s)))
            && o.world.deposit.events == w.deposit.events && Synced(o.world, c)
  {
  }

  /** A signature for another request never reaches the deposit. */
  lemma StaleSignatureIsRefused(w: World, c: Config)
    requires c.Valid() && Synced(w, c)
    requires w.keep.submitted == [] || w.keep.submitted[|w.keep.submitted| - 1].digest != w.deposit.digest
    ensures SignatureAction(w) == Outcome(w, Some(NoSignatureForDigest))
  {
  }

  // ---- Whole runs of bumps ----

  /** One round of the redemption: the keep signs, the client provides the signature, then it bumps the fee. */
  datatype Round = Round(r: nat, s: nat, recoveryID: byte, digest: Digest, number: nat)

  function SignedRound(w: World, round: Round): World {
    SignatureAction(SubmitSignature(w, round.r, round.s, round.recoveryID).world).world
  }

  function OneRound(w: World, c: Config, round: Round): World
    requires c.Valid()
  {
    var signed := SignedRound(w, round);
    Bump(signed, c, signed.deposit.events, round.digest, Some(round.number)).world
  }

  function BumpRounds(w: World, c: Config, rounds: seq<Round>): World
    requires c.Valid()
    decreases |rounds|
  {
    if rounds == [] then w else BumpRounds(OneRound(w, c, rounds[0]), c, rounds[1..])
  }

  /** The last rung: the largest multiple of the initial fee, counted in fees, that the output covers. */
  function LastRung(c: Config): (k: nat)
    requires c.Valid() && c.initialFee > 0
    ensures forall n: nat :: n <= k <==> n * c.initialFee <= c.Utxo()
  {
    var k := c.Utxo() / c.initialFee;
    LastRungFits(c.Utxo(), c.initialFee);
    k
  }

  lemma LastRungFits(x: nat, d: nat)
    requires d > 0
    ensures forall n: nat :: n <= x / d <==> n * d <= x
  {
    forall n: nat ensures n <= x / d <==> n * d <= x {
      DivisionBounds(x, d, n);
    }
  }

  lemma DivisionBounds(x: nat, d: nat, n: nat)
    requires d > 0
    ensures n <= x / d <==> n * d <= x
  {
    var q := x / d;
    assert x == q * d + x % d;
    if n <= q {
      ProductMonotone(n, q, d);
    } else {
      ProductMonotone(q + 1, n, d);
      NextRung(q, d);
    }
  }

  lemma ProductMonotone(a: int, b: int, d: nat)
    requires a <= b
    ensures a * d <= b * d
  {
  }

  /**
   Repeated rounds climb one rung each until the next fee no longer fits, and then stay there for
   good: the fee after any number of rounds is the smaller of "one rung per round" and the last rung.
   */
  lemma RoundsClimbToTheLastRung(w: World, c: Config, rounds: seq<Round>)
    requires c.Valid() && Synced(w, c) && c.initialFee > 0
    requires |w.deposit.events| <= LastRung(c)
    requires forall i :: 0 <= i < |rounds| ==> rounds[i].digest != 0
    ensures var top := Rung(|w.deposit.events| + |rounds|, c);
            var end := BumpRounds(w, c, rounds);
            Synced(end, c) && end.deposit.fee == Some(top * c.initialFee) && |end.deposit.events| == top
    ensures w.deposit.signature == None ==>
              forall k :: 0 <= k < |rounds| ==> BumpIsSigned(BumpRounds(w, c, rounds[..k]), c, rounds[k])
  {
    RoundsStayOnLadder(w, c, rounds);
    if w.deposit.signature == None {
      forall k | 0 <= k < |rounds| ensures BumpIsSigned(BumpRounds(w, c, rounds[..k]), c, rounds[k]) {
        UnsignedBelowTheTop(w, c, rounds[..k]);
        RoundsStayOnLadder(w, c, rounds[..k]);
        NextBumpIsSigned(BumpRounds(w, c, rounds[..k]), c, rounds[k]);
      }
    }
  }

  /** If the round's bump is accepted, it was made on the signature of this very round, and none is left. */
  ghost predicate BumpIsSigned(w: World, c: Config, round: Round)
    requires c.Valid()
  {
    |OneRound(w, c, round).deposit.events| > |w.deposit.events| ==>
      && SignedRound(w, round).deposit.signature
         == Some(Signature((27 + round.recoveryID as int) % 256, round.r, round.s))
      && OneRound(w, c, round).deposit.signature == None
  }

  ghost predicate UnsignedOrAtTop(w: World, c: Config)
    requires c.Valid() && c.initialFee > 0
  {
    w.deposit.signature == None || |w.deposit.events| == LastRung(c)
  }

  lemma NextBumpIsSigned(w: World, c: Config, round: Round)
    requires c.Valid() && Synced(w, c) && c.initialFee > 0 && round.digest != 0
    requires |w.deposit.events| <= LastRung(c) && UnsignedOrAtTop(w, c)
    ensures BumpIsSigned(w, c, round) && UnsignedOrAtTop(OneRound(w, c, round), c)
  {
    OneRoundClimbs(w, c, round);
    SignedRequestIsProvided(w, c, round.r, round.s, round.recoveryID);
    hide Synced, LastRung, SignatureAction, SubmitSignature;
    AcceptedBumpClears(SignedRound(w, round), c, round);
  }

  lemma AcceptedBumpClears(signed: World, c: Config, round: Round)
    requires c.Valid()
    ensures var bumped := Bump(signed, c, signed.deposit.events, round.digest, Some(round.number)).world;
            |bumped.deposit.events| > |signed.deposit.events| ==> bumped.deposit.signature == None
  {
    hide BumpOutputs;
  }

  /** Below the last rung no signature is left over from an earlier round. */
  lemma {:induction false} UnsignedBelowTheTop(w: World, c: Config, rounds: seq<Round>)
    requires c.Valid() && Synced(w, c) && c.initialFee > 0
    requires |w.deposit.events| <= LastRung(c) && UnsignedOrAtTop(w, c)
    requires forall i :: 0 <= i < |rounds| ==> rounds[i].digest != 0
    ensures UnsignedOrAtTop(BumpRounds(w, c, rounds), c)
    decreases |rounds|
  {
    hide Synced, OneRound, LastRung, UnsignedOrAtTop, BumpIsSigned;
    if rounds != [] {
      OneRoundClimbs(w, c, rounds[0]);
      NextBumpIsSigned(w, c, rounds[0]);
      UnsignedBelowTheTop(OneRound(w, c, rounds[0]), c, rounds[1..]);
    }
  }

  /** One rung per round, or the last one. */
  function Rung(n: nat, c: Config): nat
    requires c.Valid() && c.initialFee > 0
  {
    if n <= LastRung(c) then n else LastRung(c)
  }

  lemma {:induction false} RoundsStayOnLadder(w: World, c: Config, rounds: seq<Round>)
    requires c.Valid() && Synced(w, c) && c.initialFee > 0
    requires |w.deposit.events| <= LastRung(c)
    requires forall i :: 0 <= i < |rounds| ==> rounds[i].digest != 0
    ensures Synced(BumpRounds(w, c, rounds), c)
    ensures |BumpRounds(w, c, rounds).deposit.events| == Rung(|w.deposit.events| + |rounds|, c)
    decreases |rounds|
  {
    hide Synced, OneRound, LastRung;
    if rounds != [] {
      OneRoundClimbs(w, c, rounds[0]);
      RoundsStayOnLadder(OneRound(w, c, rounds[0]), c, rounds[1..]);
    }
  }

  lemma OneRoundClimbs(w: World, c: Config, round: Round)
    requires c.Valid() && Synced(w, c) && c.initialFee > 0 && round.digest != 0
    requires |w.deposit.events| <= LastRung(c)
    ensures var n := |w.deposit.events|;
            Synced(OneRound(w, c, round), c)
            && |OneRound(w, c, round).deposit.events| == if n < LastRung(c) then n + 1 else n
  {
    SignedRequestIsProvided(w, c, round.r, round.s, round.recoveryID);
    var signed := SignedRound(w, round);
    hide SignatureAction, SubmitSignature, Bump;
    assert signed.deposit.events[0..] == signed.deposit.events;
    assert signed.deposit.signature.Some? && signed.deposit.events != [];
    hide Synced;
    BumpAcceptedExactly(signed, c, 0, round.digest, round.number);
    assert BumpFits(c, |w.deposit.events|, 0) <==> |w.deposit.events| + 1 <= LastRung(c);
  }

  /** With the constants of the local chain the fee stops at 1000000 bumps, the whole deposit. */
  lemma DefaultLadder()
    ensures var c := Config(DEFAULT_INITIAL_REDEMPTION_FEE, DEFAULT_UTXO_VALUE_BYTES);
            c.Valid() && c.Utxo() == 10_000_000 && LastRung(c) == 1_000_000
  {
    var c := Config(DEFAULT_INITIAL_REDEMPTION_FEE, DEFAULT_UTXO_VALUE_BYTES);
    assert c.Utxo() == 10_000_000;
    var k := LastRung(c);
    assert 1_000_000 <= k <==> 1_000_000 * c.initialFee <= c.Utxo();
    assert 1_000_001 <= k <==> 1_000_001 * c.initialFee <= c.Utxo();
  }

  /**
   After a bump whose block number could not be read, the client is stuck: the fee moved without an
   event, so no view of the events yields numbers the chain accepts.
   */
  lemma LostEventBlocksTheClient(
    w: World, c: Config, op: Op, signature: Signature, from: nat, digest: Digest, number: nat)
    requires c.Valid() && op.Valid() && Synced(w, c) && c.initialFee > 0
    requires LosesEvent(w, c, op)
    requires from < |w.deposit.events|
    ensures var lost := Step(w, c, op).world;
            var signed := ProvideSignature(lost, signature).world;
            Bump(signed, c, signed.deposit.events[from..], digest, Some(number)) ==
            Outcome(signed, Some(WrongPreviousOutputValue))
  {
    StepKeepsLadder(w, c, op);
    var lost := Step(w, c, op).world;
    var signed := ProvideSignature(lost, signature).world;
    assert signed.deposit.events == w.deposit.events;
    OutputsSeen(w, c, from);
    var n := |w.deposit.events|;
    NextRung(n, c.initialFee);
    assert signed.deposit.fee == Some((n + 1) * c.initialFee);
    CodecKeepsLow32Bits(c.Utxo() - n * c.initialFee);
    CodecRoundTrip(c.Utxo() - n * c.initialFee);
  }
}
