/**
 The local tBTC chain: deposits and the keeps behind them, changed in place by the calls of
 the client. Each call is first given as a function on one deposit and its keep, then as a
 method of the chain object proved equal to that function.
 */
module LocalChain {
  import opened Wrappers
  import opened LittleEndian

  const DEFAULT_INITIAL_REDEMPTION_FEE: nat := 10
  const DEFAULT_UTXO_VALUE_BYTES: seq<byte> := [0x80, 0x96, 0x98, 0, 0, 0, 0, 0]

  /** A 32-byte array read as a number; 0 is Go's zero array. Public keys are read the same way. */
  type Digest = nat
  type PublicKey = nat

  datatype DepositState =
    | Start
    | AwaitingSignerSetup
    | AwaitingBtcFundingProof
    | FailedSetup
    | Active
    | AwaitingWithdrawalSignature
    | AwaitingWithdrawalProof
    | Redeemed
    | CourtesyCall
    | FraudLiquidationInProgress
    | LiquidationInProgress
    | Liquidated

  datatype Failure =
    | NoSuchDeposit
    | RedemptionAlreadyRequested
    | NoKeepPublicKey
    | PubkeyAlreadyRetrieved
    | PublicKeyAlreadySubmitted
    | BlockCounterFailed
    | NotInRedemption
    | SignatureAlreadyProvided
    | NoRedemptionSignature
    | WrongPreviousOutputValue
    | WrongFeeStep
    | ProofAlreadyProvided
    | NotAwaitingSignature
    | AlwaysFailingTransaction
    | NilValue  // a nil *big.Int is used: the call panics
    | NoEvents
    | NoSignatureForDigest
    | NotConfirmed

  datatype Signature = Signature(v: byte, r: nat, s: nat)

  datatype SubmittedSignature = SubmittedSignature(digest: Digest, r: nat, s: nat, recoveryID: byte)

  datatype RedemptionRequested = RedemptionRequested(
    digest: Digest, utxoValue: Option<int>, requestedFee: int, blockNumber: nat)

  datatype Keep = Keep(publicKey: PublicKey, latestDigest: Digest, submitted: seq<SubmittedSignature>)

  datatype Deposit = Deposit(
    pubkey: PublicKey,
    state: DepositState,
    utxoValue: Option<int>,
    digest: Digest,
    fee: Option<int>,
    signature: Option<Signature>,
    proven: bool,
    events: seq<RedemptionRequested>)

  /** One deposit with the keep that signs for it. */
  datatype World = World(deposit: Deposit, keep: Keep)

  /** The state after a call, and the error the call returned if any. */
  datatype Outcome = Outcome(world: World, failure: Option<Failure>)

  const NEW_WORLD :=
    World(Deposit(0, AwaitingSignerSetup, None, 0, None, None, false, []), Keep(0, 0, []))

  /** The two constants of the local chain, kept symbolic so that nothing depends on their values. */
  datatype Config = Config(initialFee: nat, fundingBytes: seq<byte>) {
    ghost predicate Valid() { |fundingBytes| == 8 }

    /** The value every funded deposit holds. */
    function Utxo(): (value: nat)
      requires Valid()
      ensures value < TWO_TO_THE_32
    {
      UtxoValueBytesToUint32(fundingBytes)
    }
  }

  function Fund(w: World, c: Config): World
    requires c.Valid()
  {
    w.(deposit := w.deposit.(utxoValue := Some(c.Utxo())))
  }

  /** The tail shared by both redemption calls: ask the keep to sign, read the block, log the event. */
  function RequestAndLog(d: Deposit, keep: Keep, block: Option<nat>): Outcome
    requires d.fee.Some?
  {
    if keep.publicKey == 0 then Outcome(World(d, keep), Some(NoKeepPublicKey))
    else
      var asked := keep.(latestDigest := d.digest);
      match block
      case None => Outcome(World(d, asked), Some(BlockCounterFailed))
      case Some(number) =>
        var logged := RedemptionRequested(d.digest, d.utxoValue, d.fee.value, number);
        Outcome(World(d.(events := d.events + [logged]), asked), None)
  }

  function Redeem(w: World, c: Config, digest: Digest, block: Option<nat>): Outcome {
    if w.deposit.digest != 0 then Outcome(w, Some(RedemptionAlreadyRequested))
    else
      RequestAndLog(
        w.deposit.(state := AwaitingWithdrawalSignature, digest := digest, fee := Some(c.initialFee)),
        w.keep, block)
  }

  function ProvideSignature(w: World, signature: Signature): Outcome {
    if w.deposit.digest == 0 then Outcome(w, Some(NotInRedemption))
    else if w.deposit.signature.Some? then Outcome(w, Some(SignatureAlreadyProvided))
    else
      Outcome(w.(deposit := w.deposit.(state := AwaitingWithdrawalProof, signature := Some(signature))), None)
  }

  function IncreaseFee(
    w: World, c: Config, previousBytes: seq<byte>, newBytes: seq<byte>, digest: Digest, block: Option<nat>): Outcome
    requires |previousBytes| == |newBytes| == 8
  {
    var d := w.deposit;
    var previous: int := UtxoValueBytesToUint32(previousBytes);
    var next: int := UtxoValueBytesToUint32(newBytes);
    if d.signature.None? then Outcome(w, Some(NoRedemptionSignature))
    else if d.utxoValue.None? || d.fee.None? then Outcome(w, Some(NilValue))
    else if d.utxoValue.value - d.fee.value != previous then Outcome(w, Some(WrongPreviousOutputValue))
    else if previous - next != c.initialFee then Outcome(w, Some(WrongFeeStep))
    else
      RequestAndLog(
        d.(state := AwaitingWithdrawalSignature, digest := digest,
           fee := Some(d.utxoValue.value - next), signature := None),
        w.keep, block)
  }

  function ProvideProof(w: World): Outcome {
    if w.deposit.proven then Outcome(w, Some(ProofAlreadyProvided))
    else Outcome(w.(deposit := w.deposit.(state := Redeemed, proven := true)), None)
  }

  function RetrievePubkey(w: World): Outcome {
    if w.deposit.pubkey != 0 then Outcome(w, Some(PubkeyAlreadyRetrieved))
    else if w.keep.publicKey == 0 then Outcome(w, Some(NoKeepPublicKey))
    else
      Outcome(w.(deposit := w.deposit.(pubkey := w.keep.publicKey, state := AwaitingBtcFundingProof)), None)
  }

  function SubmitPublicKey(w: World, key: PublicKey): Outcome {
    if w.keep.publicKey != 0 then Outcome(w, Some(PublicKeyAlreadySubmitted))
    else Outcome(w.(keep := w.keep.(publicKey := key)), None)
  }

  function SubmitSignature(w: World, r: nat, s: nat, recoveryID: byte): Outcome {
    if w.keep.latestDigest == 0 then Outcome(w, Some(NotAwaitingSignature))
    else
      var submitted := SubmittedSignature(w.keep.latestDigest, r, s, recoveryID);
      Outcome(w.(keep := w.keep.(submitted := w.keep.submitted + [submitted])), None)
  }

  /** Everything anybody can do to one deposit; digests and block numbers are the environment's. */
  datatype Op =
    | FundOp
    | RedeemOp(digest: Digest, block: Option<nat>)
    | ProvideSignatureOp(signature: Signature)
    | IncreaseFeeOp(previousBytes: seq<byte>, newBytes: seq<byte>, digest: Digest, block: Option<nat>)
    | ProvideProofOp
    | RetrievePubkeyOp
    | SubmitPublicKeyOp(key: PublicKey)
    | SubmitSignatureOp(r: nat, s: nat, recoveryID: byte)
  {
    /** Byte arrays have eight bytes, and a random digest is not the zero array. */
    ghost predicate Valid() {
      match this
      case RedeemOp(digest, _) => digest != 0
      case IncreaseFeeOp(previousBytes, newBytes, digest, _) =>
        |previousBytes| == |newBytes| == 8 && digest != 0
      case _ => true
    }

    /** The block counter answers if this call asks it. */
    predicate BlockKnown() {
      match this
      case RedeemOp(_, block) => block.Some?
      case IncreaseFeeOp(_, _, _, block) => block.Some?
      case _ => true
    }
  }

  function Step(w: World, c: Config, op: Op): Outcome
    requires c.Valid() && op.Valid()
  {
    match op
    case FundOp => Outcome(Fund(w, c), None)
    case RedeemOp(digest, block) => Redeem(w, c, digest, block)
    case ProvideSignatureOp(signature) => ProvideSignature(w, signature)
    case IncreaseFeeOp(p, n, digest, block) => IncreaseFee(w, c, p, n, digest, block)
    case ProvideProofOp => ProvideProof(w)
    case RetrievePubkeyOp => RetrievePubkey(w)
    case SubmitPublicKeyOp(key) => SubmitPublicKey(w, key)
    case SubmitSignatureOp(r, s, id) => SubmitSignature(w, r, s, id)
  }

  ghost predicate ValidOps(ops: seq<Op>) {
    forall i :: 0 <= i < |ops| ==> ops[i].Valid()
  }

  function Run(w: World, c: Config, ops: seq<Op>): World
    requires c.Valid() && ValidOps(ops)
    decreases |ops|
  {
    if ops == [] then w else Run(Step(w, c, ops[0]).world, c, ops[1..])
  }

  class LocalKeep {
    var publicKey: PublicKey
    var latestDigest: Digest
    var submitted: seq<SubmittedSignature>

    constructor ()
      ensures Value() == Keep(0, 0, [])
    {
      publicKey, latestDigest, submitted := 0, 0, [];
    }

    function Value(): Keep
      reads this
    {
      Keep(publicKey, latestDigest, submitted)
    }

    /** The local keep returns every event, whatever block the search should start from. */
    method PastSignatureSubmittedEvents(startBlock: nat) returns (events: seq<SubmittedSignature>)
      ensures events == submitted
    {
      return submitted;
    }
  }

  class LocalDeposit {
    const keep: LocalKeep
    var pubkey: PublicKey
    var state: DepositState
    var utxoValue: Option<int>
    var redemptionDigest: Digest
    var redemptionFee: Option<int>
    var redemptionSignature: Option<Signature>
    var redemptionProof: bool
    var redemptionRequestedEvents: seq<RedemptionRequested>

    constructor (keep: LocalKeep)
      ensures this.keep == keep
      ensures DepositValue() == NEW_WORLD.deposit
    {
      this.keep := keep;
      pubkey, state, utxoValue, redemptionDigest := 0, AwaitingSignerSetup, None, 0;
      redemptionFee, redemptionSignature, redemptionProof := None, None, false;
      redemptionRequestedEvents := [];
    }

    function DepositValue(): Deposit
      reads this
    {
      Deposit(pubkey, state, utxoValue, redemptionDigest, redemptionFee, redemptionSignature,
              redemptionProof, redemptionRequestedEvents)
    }

    function Value(): World
      reads this, keep
    {
      World(DepositValue(), keep.Value())
    }

    /** The keep is asked for this digest, and one event more than before says so. */
    predicate Requests(digest: Digest, number: nat, before: seq<RedemptionRequested>)
      reads this, keep
    {
      && redemptionFee.Some?
      && redemptionDigest == digest == keep.latestDigest && keep.publicKey != 0
      && redemptionRequestedEvents == before + [RedemptionRequested(digest, utxoValue, redemptionFee.value, number)]
    }
  }

  class TBTCLocalChain {
    const config: Config
    var deposits: map<string, LocalDeposit>
    var alwaysFailingTransactions: set<string>

    /** Every deposit has its own keep, so a call on one deposit cannot reach another. */
    ghost predicate Valid()
      reads this
    {
      && config.Valid()
      && forall a, b :: a in deposits && b in deposits && a != b ==>
           deposits[a] != deposits[b] && deposits[a].keep != deposits[b].keep
    }

    /** What the other deposits look like. */
    ghost function Others(address: string): map<string, World>
      reads this, deposits.Values, set d | d in deposits.Values :: d.keep
    {
      map a | a in deposits && a != address :: deposits[a].Value()
    }

    constructor (config: Config)
      requires config.Valid()
      ensures Valid() && this.config == config && deposits == map[] && alwaysFailingTransactions == {}
    {
      this.config := config;
      deposits, alwaysFailingTransactions := map[], {};
    }

    /** A deposit that is already there is replaced, with its keep. */
    method CreateDeposit(address: string)
      requires Valid()
      modifies this
      ensures Valid()
      ensures deposits.Keys == old(deposits.Keys) + {address}
      ensures deposits[address].Value() == NEW_WORLD
      ensures Others(address) == old(Others(address))
    {
      var keep := new LocalKeep();
      var deposit := new LocalDeposit(keep);
      Replace(address, deposit);
    }

    method Replace(address: string, deposit: LocalDeposit)
      requires Valid()
      requires forall a :: a in deposits ==> deposits[a] != deposit && deposits[a].keep != deposit.keep
      modifies this`deposits
      ensures Valid() && deposits == old(deposits)[address := deposit]
      ensures Others(address) == old(Others(address))
    {
      deposits := deposits[address := deposit];
    }

    method FundDeposit(address: string)
      requires Valid() && address in deposits
      modifies deposits[address]
      ensures Valid() && deposits[address].Value() == Fund(old(deposits[address].Value()), config)
      ensures deposits[address].utxoValue == Some(config.Utxo())
      ensures Others(address) == old(Others(address))
    {
      deposits[address].utxoValue := Some(UtxoValueBytesToUint32(config.fundingBytes));
    }

    /** localChain.RequestSignature together with the event that follows it in both callers. */
    method RequestSignatureAndLog(deposit: LocalDeposit, block: Option<nat>) returns (failure: Option<Failure>)
      requires deposit.redemptionFee.Some?
      modifies deposit`redemptionRequestedEvents, deposit.keep`latestDigest
      ensures Outcome(deposit.Value(), failure) ==
              RequestAndLog(old(deposit.DepositValue()), old(deposit.keep.Value()), block)
    {
      if deposit.keep.publicKey == 0 {
        return Some(NoKeepPublicKey);
      }
      deposit.keep.latestDigest := deposit.redemptionDigest;
      if block.None? {
        return Some(BlockCounterFailed);
      }
      var event := RedemptionRequested(
        deposit.redemptionDigest, deposit.utxoValue, deposit.redemptionFee.value, block.value);
      deposit.redemptionRequestedEvents := deposit.redemptionRequestedEvents + [event];
      return None;
    }

    method RedeemDeposit(address: string, randomDigest: Digest, block: Option<nat>)
      returns (failure: Option<Failure>)
      requires Valid()
      modifies deposits.Values, set d | d in deposits.Values :: d.keep
      ensures Valid() && Others(address) == old(Others(address))
      ensures address !in deposits ==> failure == Some(NoSuchDeposit)
      ensures address in deposits ==>
        Outcome(deposits[address].Value(), failure) ==
        Redeem(old(deposits[address].Value()), config, randomDigest, block)
      ensures failure == None ==>
        var d := deposits[address];
        && old(d.redemptionDigest) == 0 && block.Some?
        && d.state == AwaitingWithdrawalSignature && d.redemptionFee == Some(config.initialFee)
        && d.redemptionSignature == old(d.redemptionSignature) && d.utxoValue == old(d.utxoValue)
        && d.Requests(randomDigest, block.value, old(d.redemptionRequestedEvents))
    {
      if address !in deposits {
        return Some(NoSuchDeposit);
      }
      var deposit := deposits[address];
      if deposit.redemptionDigest != 0 {
        return Some(RedemptionAlreadyRequested);
      }
      deposit.state := AwaitingWithdrawalSignature;
      deposit.redemptionDigest := randomDigest;
      deposit.redemptionFee := Some(config.initialFee);
      failure := RequestSignatureAndLog(deposit, block);
    }

    method ProvideRedemptionSignature(address: string, v: byte, r: nat, s: nat)
      returns (failure: Option<Failure>)
      requires Valid()
      modifies deposits.Values
      ensures Valid() && Others(address) == old(Others(address))
      ensures "ProvideRedemptionSignature" in alwaysFailingTransactions ==>
        && failure == Some(AlwaysFailingTransaction)
        && (address in deposits ==> deposits[address].Value() == old(deposits[address].Value()))
      ensures "ProvideRedemptionSignature" !in alwaysFailingTransactions && address !in deposits ==>
        failure == Some(NoSuchDeposit)
      ensures "ProvideRedemptionSignature" !in alwaysFailingTransactions && address in deposits ==>
        Outcome(deposits[address].Value(), failure) ==
        ProvideSignature(old(deposits[address].Value()), Signature(v, r, s))
      ensures failure == None ==>
        var d := deposits[address];
        && d.redemptionDigest != 0 && old(d.redemptionSignature) == None
        && d.state == AwaitingWithdrawalProof && d.redemptionSignature == Some(Signature(v, r, s))
        && d.redemptionDigest == old(d.redemptionDigest) && d.redemptionFee == old(d.redemptionFee)
        && d.redemptionRequestedEvents == old(d.redemptionRequestedEvents)
    {
      if "ProvideRedemptionSignature" in alwaysFailingTransactions {
        return Some(AlwaysFailingTransaction);
      }
      if address !in deposits {
        return Some(NoSuchDeposit);
      }
      var deposit := deposits[address];
      if deposit.redemptionDigest == 0 {
        return Some(NotInRedemption);
      }
      if deposit.redemptionSignature.Some? {
        return Some(SignatureAlreadyProvided);
      }
      deposit.state := AwaitingWithdrawalProof;
      deposit.redemptionSignature := Some(Signature(v, r, s));
      return None;
    }

    /** The fee increase of one deposit: both value checks, then the new request. */
    method IncreaseFeeOf(
      deposit: LocalDeposit, previousOutputValueBytes: seq<byte>, newOutputValueBytes: seq<byte>,
      randomDigest: Digest, block: Option<nat>)
      returns (failure: Option<Failure>)
      requires config.Valid() && |previousOutputValueBytes| == |newOutputValueBytes| == 8
      modifies deposit, deposit.keep`latestDigest
      ensures Outcome(deposit.Value(), failure) ==
              IncreaseFee(old(deposit.Value()), config,
                          previousOutputValueBytes, newOutputValueBytes, randomDigest, block)
      ensures failure == None ==>
        && old(deposit.redemptionSignature).Some? && block.Some?
        && old(deposit.redemptionFee).Some?
        && deposit.redemptionFee == Some(old(deposit.redemptionFee).value + config.initialFee)
        && deposit.state == AwaitingWithdrawalSignature && deposit.redemptionSignature == None
        && deposit.utxoValue == old(deposit.utxoValue)
        && deposit.Requests(randomDigest, block.value, old(deposit.redemptionRequestedEvents))
    {
      if deposit.redemptionSignature.None? {
        return Some(NoRedemptionSignature);
      }
      if deposit.utxoValue.None? || deposit.redemptionFee.None? {
        return Some(NilValue);
      }
      var previousOutputValue: int := UtxoValueBytesToUint32(previousOutputValueBytes);
      if deposit.utxoValue.value - deposit.redemptionFee.value != previousOutputValue {
        return Some(WrongPreviousOutputValue);
      }
      var newOutputValue: int := UtxoValueBytesToUint32(newOutputValueBytes);
      if previousOutputValue - newOutputValue != config.initialFee {
        return Some(WrongFeeStep);
      }
      deposit.state := AwaitingWithdrawalSignature;
      deposit.redemptionDigest := randomDigest;
      deposit.redemptionFee := Some(deposit.utxoValue.value - newOutputValue);
      deposit.redemptionSignature := None;
      failure := RequestSignatureAndLog(deposit, block);
    }

    method IncreaseRedemptionFee(
      address: string, previousOutputValueBytes: seq<byte>, newOutputValueBytes: seq<byte>,
      randomDigest: Digest, block: Option<nat>)
      returns (failure: Option<Failure>)
      requires Valid() && |previousOutputValueBytes| == |newOutputValueBytes| == 8
      modifies deposits.Values, set d | d in deposits.Values :: d.keep
      ensures Valid() && Others(address) == old(Others(address))
      ensures "IncreaseRedemptionFee" in alwaysFailingTransactions ==>
        && failure == Some(AlwaysFailingTransaction)
        && (address in deposits ==> deposits[address].Value() == old(deposits[address].Value()))
      ensures "IncreaseRedemptionFee" !in alwaysFailingTransactions && address !in deposits ==>
        failure == Some(NoSuchDeposit)
      ensures "IncreaseRedemptionFee" !in alwaysFailingTransactions && address in deposits ==>
        Outcome(deposits[address].Value(), failure) ==
        IncreaseFee(old(deposits[address].Value()), config,
                    previousOutputValueBytes, newOutputValueBytes, randomDigest, block)
      ensures failure == None ==>
        var d := deposits[address];
        && old(d.redemptionSignature).Some? && block.Some?
        && old(d.redemptionFee).Some? && d.redemptionFee == Some(old(d.redemptionFee).value + config.initialFee)
        && d.state == AwaitingWithdrawalSignature && d.redemptionSignature == None
        && d.utxoValue == old(d.utxoValue)
        && d.Requests(randomDigest, block.value, old(d.redemptionRequestedEvents))
    {
      if "IncreaseRedemptionFee" in alwaysFailingTransactions {
        return Some(AlwaysFailingTransaction);
      }
      if address !in deposits {
        return Some(NoSuchDeposit);
      }
      failure := IncreaseFeeOf(deposits[address], previousOutputValueBytes, newOutputValueBytes, randomDigest, block);
    }

    method ProvideRedemptionProof(address: string) returns (failure: Option<Failure>)
      requires Valid()
      modifies deposits.Values
      ensures Valid() && Others(address) == old(Others(address))
      ensures address !in deposits ==> failure == Some(NoSuchDeposit)
      ensures address in deposits ==>
        Outcome(deposits[address].Value(), failure) == ProvideProof(old(deposits[address].Value()))
      ensures failure == None ==>
        var d := deposits[address];
        !old(d.redemptionProof) && d.redemptionProof && d.state == Redeemed
    {
      if address !in deposits {
        return Some(NoSuchDeposit);
      }
      var deposit := deposits[address];
      if deposit.redemptionProof {
        return Some(ProofAlreadyProvided);
      }
      deposit.state := Redeemed;
      deposit.redemptionProof := true;
      return None;
    }

    method RetrieveSignerPubkey(address: string) returns (failure: Option<Failure>)
      requires Valid()
      modifies deposits.Values
      ensures Valid() && Others(address) == old(Others(address))
      ensures address !in deposits ==> failure == Some(NoSuchDeposit)
      ensures address in deposits ==>
        Outcome(deposits[address].Value(), failure) == RetrievePubkey(old(deposits[address].Value()))
      ensures failure == None ==>
        var d := deposits[address];
        old(d.pubkey) == 0 && d.pubkey == d.keep.publicKey != 0 && d.state == AwaitingBtcFundingProof
    {
      if address !in deposits {
        return Some(NoSuchDeposit);
      }
      var deposit := deposits[address];
      if deposit.pubkey != 0 {
        return Some(PubkeyAlreadyRetrieved);
      }
      if deposit.keep.publicKey == 0 {
        return Some(NoKeepPublicKey);
      }
      deposit.pubkey := deposit.keep.publicKey;
      deposit.state := AwaitingBtcFundingProof;
      return None;
    }

    /** The local chain returns every event, whatever block the search should start from. */
    method PastDepositRedemptionRequestedEvents(startBlock: nat, address: string)
      returns (events: Result<seq<RedemptionRequested>, Failure>)
      requires Valid()
      ensures address in deposits ==> events == Ok(deposits[address].redemptionRequestedEvents)
      ensures address !in deposits ==> events == Err(NoSuchDeposit)
    {
      if address !in deposits {
        return Err(NoSuchDeposit);
      }
      return Ok(deposits[address].redemptionRequestedEvents);
    }
  }
}
