/**
 The fee a member is willing to pay and the transaction the members of a terminated keep sign: one
 input, one output per agreed address, equal shares of what the fee leaves. Go's signed 32-bit
 arithmetic wraps around and its division truncates toward zero; both are written out.
 */
module RecoveryTransaction {
  import opened Wrappers
  import opened GroupProtocol
  import opened RecoveryBroadcast
  import opened RecoveryAgreement

  const TWO_TO_THE_31 := 0x8000_0000
  const TWO_TO_THE_32 := 0x1_0000_0000

  const DEFAULT_VBYTE_FEE := 75
  const ESTIMATED_TRANSACTION_SIZE_VBYTE := 175

  predicate IsInt32(x: int) { -TWO_TO_THE_31 <= x < TWO_TO_THE_31 }

  function WrapInt32(x: int): (r: int)
    ensures IsInt32(r)
    ensures IsInt32(x) ==> r == x
  {
    (x + TWO_TO_THE_31) % TWO_TO_THE_32 - TWO_TO_THE_31
  }

  /** Go's integer division. */
  function GoDiv(a: int, n: int): (q: int)
    requires n > 0
  {
    if a >= 0 then a / n else -((-a) / n)
  }

  // ---- The fee rate of one member ----

  predicate EstimateExceeds(fetched: int, previousOutputValue: int) {
    WrapInt32(fetched * ESTIMATED_TRANSACTION_SIZE_VBYTE) > GoDiv(previousOutputValue, 20)
  }

  function ResolvedVbyteFee(fetched: int, configured: int, previousOutputValue: int): int {
    if fetched > 0 then
      if EstimateExceeds(fetched, previousOutputValue) && 0 < configured < fetched then configured else fetched
    else if fetched != 0 then fetched
    else if configured != 0 then configured
    else DEFAULT_VBYTE_FEE
  }

  method Min(a: int, b: int) returns (r: int)
    ensures r <= a && r <= b && r in {a, b}
  {
    if a < b {
      return a;
    }
    return b;
  }

  /** `fetched` is 0 when the Bitcoin API could not be asked. */
  method ResolveVbyteFee(fetched: int, configured: int, previousOutputValue: int) returns (vbyteFee: int)
    requires IsInt32(fetched) && IsInt32(configured) && IsInt32(previousOutputValue)
    ensures vbyteFee == ResolvedVbyteFee(fetched, configured, previousOutputValue)
    ensures vbyteFee > 0 <==> fetched > 0 || (fetched == 0 && configured >= 0)
  {
    vbyteFee := fetched;
    if vbyteFee > 0 {
      var estimatedTransactionFee := WrapInt32(vbyteFee * ESTIMATED_TRANSACTION_SIZE_VBYTE);
      var fivePercentPreviousOutput := GoDiv(previousOutputValue, 20);
      if estimatedTransactionFee > fivePercentPreviousOutput {
        if configured > 0 {
          vbyteFee := Min(vbyteFee, configured);
        }
      }
    }
    if vbyteFee == 0 {
      vbyteFee := configured;
    }
    if vbyteFee == 0 {
      vbyteFee := DEFAULT_VBYTE_FEE;
    }
  }

  /** The rule as documented, in unbounded arithmetic on the real value of the output. */
  function DocumentedVbyteFee(suggested: nat, configured: nat, utxo: nat): nat {
    if suggested == 0 then (if configured == 0 then DEFAULT_VBYTE_FEE else configured)
    else if suggested * ESTIMATED_TRANSACTION_SIZE_VBYTE > utxo / 20 && 0 < configured < suggested then configured
    else suggested
  }

  /**
   For every suggested and configured fee and every deposit, the client follows the documented rule
   exactly when the configured limit would not have lowered the fee, or the wrapped comparison comes
   out like the documented one.
   */
  lemma FeeRuleExactly(suggested: nat, configured: nat, utxo: nat)
    requires IsInt32(suggested) && IsInt32(configured) && utxo < TWO_TO_THE_32
    ensures ResolvedVbyteFee(suggested, configured, WrapInt32(utxo)) == DocumentedVbyteFee(suggested, configured, utxo)
       <==> !(0 < configured < suggested)
            || (EstimateExceeds(suggested, WrapInt32(utxo))
                <==> suggested * ESTIMATED_TRANSACTION_SIZE_VBYTE > utxo / 20)
  {
  }

  /**
   The two ways the comparison goes wrong. An estimate of 2^31 and more exceeds five percent of every
   deposit, but the client sees its low 32 bits as a signed number; a deposit of 2^31 satoshi and more
   is itself seen as negative.
   */
  predicate ComparesAsDocumented(suggested: nat, utxo: nat) {
    var estimate := suggested * ESTIMATED_TRANSACTION_SIZE_VBYTE;
    var low := estimate % TWO_TO_THE_32;
    if estimate < TWO_TO_THE_31 then utxo < TWO_TO_THE_31 || estimate > utxo / 20
    else if utxo < TWO_TO_THE_31 then utxo / 20 < low < TWO_TO_THE_31
    else if low < TWO_TO_THE_31 then low > 0 || TWO_TO_THE_32 - utxo >= 20
    else TWO_TO_THE_32 - low < (TWO_TO_THE_32 - utxo) / 20
  }

  lemma FeeRuleInRanges(suggested: nat, configured: nat, utxo: nat)
    requires IsInt32(suggested) && IsInt32(configured) && utxo < TWO_TO_THE_32
    ensures ResolvedVbyteFee(suggested, configured, WrapInt32(utxo)) == DocumentedVbyteFee(suggested, configured, utxo)
       <==> !(0 < configured < suggested) || ComparesAsDocumented(suggested, utxo)
  {
    FeeRuleExactly(suggested, configured, utxo);
    if 0 < configured < suggested {
      WrapFromLowBits(suggested * ESTIMATED_TRANSACTION_SIZE_VBYTE);
      WrapFromLowBits(utxo);
    }
  }

  /** Wrapping reads the low 32 bits as a signed number. */
  lemma WrapFromLowBits(x: nat)
    ensures WrapInt32(x) == if x % TWO_TO_THE_32 < TWO_TO_THE_31 then x % TWO_TO_THE_32
                            else x % TWO_TO_THE_32 - TWO_TO_THE_32
  {
    var low := x % TWO_TO_THE_32;
    assert x == TWO_TO_THE_32 * (x / TWO_TO_THE_32) + low;
    assert (x + TWO_TO_THE_31) % TWO_TO_THE_32 == (low + TWO_TO_THE_31) % TWO_TO_THE_32;
  }

  /** A deposit of 21.5 BTC is read as negative: a small suggested fee is cut although it is far below five percent. */
  lemma LargeDepositLowersTheFee()
    ensures ResolvedVbyteFee(40, 10, WrapInt32(2_150_000_000)) != DocumentedVbyteFee(40, 10, 2_150_000_000)
    ensures ResolvedVbyteFee(40, 10, WrapInt32(2_150_000_000)) == 10 && DocumentedVbyteFee(40, 10, 2_150_000_000) == 40
  {
    FeeRuleInRanges(40, 10, 2_150_000_000);
  }

  /** A huge suggested fee wraps to a negative estimate: the configured limit is not applied. */
  lemma HugeFeeEscapesTheLimit()
    ensures ResolvedVbyteFee(12_271_336, 10, WrapInt32(1_000_000)) == 12_271_336
    ensures DocumentedVbyteFee(12_271_336, 10, 1_000_000) == 10
  {
    FeeRuleInRanges(12_271_336, 10, 1_000_000);
  }

  // ---- The unsigned transaction ----

  type Hash = string
  type Script = string

  datatype Outpoint = Outpoint(hash: Hash, index: nat)

  datatype TxOut = TxOut(value: int, script: Script)

  datatype Transaction = Transaction(input: Outpoint, sequence: nat, outputs: seq<TxOut>)

  datatype BuildError = BadTransactionHash | BadRecipient(address: string)

  /** What the Bitcoin library answers: the parsed hash, an address's script, a transaction's virtual size. */
  datatype Bitcoin = Bitcoin(
    hash: string -> Option<Hash>, script: string -> Option<Script>, virtualSize: seq<Script> -> nat)

  datatype Funding = Funding(transactionHash: string, outputIndex: nat, value: nat)

  predicate AllDecode(bitcoin: Bitcoin, recipients: seq<string>) {
    forall i :: 0 <= i < |recipients| ==> bitcoin.script(recipients[i]).Some?
  }

  function Scripts(bitcoin: Bitcoin, recipients: seq<string>): seq<Script>
    requires AllDecode(bitcoin, recipients)
  {
    seq(|recipients|, i requires 0 <= i < |recipients| => bitcoin.script(recipients[i]).value)
  }

  function Outputs(value: int, scripts: seq<Script>): seq<TxOut> {
    seq(|scripts|, i requires 0 <= i < |scripts| => TxOut(value, scripts[i]))
  }

  function TransactionFee(bitcoin: Bitcoin, feePerVbyte: int, recipients: seq<string>): int
    requires AllDecode(bitcoin, recipients)
  {
    feePerVbyte * bitcoin.virtualSize(Scripts(bitcoin, recipients))
  }

  function ScriptsOf(outputs: seq<TxOut>): seq<Script> {
    seq(|outputs|, i requires 0 <= i < |outputs| => outputs[i].script)
  }

  function UnsignedTransaction(
    bitcoin: Bitcoin, funding: Funding, feePerVbyte: int, recipients: seq<string>): Option<Transaction>
    requires |recipients| > 0
  {
    var hash := bitcoin.hash(funding.transactionHash);
    if hash.Some? && AllDecode(bitcoin, recipients) then
      var share := GoDiv(funding.value - TransactionFee(bitcoin, feePerVbyte, recipients), |recipients|);
      Some(Transaction(
        Outpoint(hash.value, funding.outputIndex), 0, Outputs(share, Scripts(bitcoin, recipients))))
    else None
  }

  // ---- Value conservation ----

  function TotalValue(outputs: seq<TxOut>): int {
    if outputs == [] then 0 else outputs[0].value + TotalValue(outputs[1..])
  }

  lemma {:induction false} EqualSharesTotal(value: int, scripts: seq<Script>)
    ensures TotalValue(Outputs(value, scripts)) == value * |scripts|
  {
    if scripts != [] {
      EqualSharesTotal(value, scripts[1..]);
      assert Outputs(value, scripts)[1..] == Outputs(value, scripts[1..]);
    }
  }

  /**
   Where the value goes, for every fee: a fee the input covers leaves nonnegative outputs that with the
   fee lose less than one satoshi per recipient. A larger fee makes the outputs and the fee overdraw
   the input, unless the missing amount divides evenly; the outputs are then nonnegative exactly when
   less than one satoshi per recipient is missing.
   */
  lemma ValueIsConserved(value: int, fee: int, scripts: seq<Script>)
    requires |scripts| > 0
    ensures var outputs := Outputs(GoDiv(value - fee, |scripts|), scripts);
            && (TotalValue(outputs) + fee <= value <==> fee <= value || (fee - value) % |scripts| == 0)
            && (fee <= value ==> 0 <= value - (TotalValue(outputs) + fee) < |scripts|)
            && (fee > value ==> 0 <= TotalValue(outputs) + fee - value < |scripts|)
            && ((forall i :: 0 <= i < |outputs| ==> outputs[i].value >= 0) <==> fee - value < |scripts|)
  {
    var n := |scripts|;
    var share := GoDiv(value - fee, n);
    var outputs := Outputs(share, scripts);
    EqualSharesTotal(share, scripts);
    ShareOf(value - fee, n);
    assert outputs[0].value == share;
    assert forall i :: 0 <= i < |outputs| ==> outputs[i].value == share;
    hide GoDiv, TotalValue, Outputs;
  }

  /** What an equal share of an amount comes to, also of a missing one. */
  lemma ShareOf(amount: int, n: nat)
    requires n > 0
    ensures var share := GoDiv(amount, n);
            && (amount >= 0 ==> share >= 0 && 0 <= amount - share * n < n)
            && (amount < 0 ==> 0 <= share * n - amount < n && (share * n == amount <==> (-amount) % n == 0))
            && (share >= 0 <==> -amount < n)
  {
    var size := if amount >= 0 then amount else -amount;
    var q := size / n;
    QuotientOf(size, n);
    assert GoDiv(amount, n) == if amount >= 0 then q else -q;
    Negated(q, n);
  }

  lemma Negated(q: int, n: int)
    ensures (-q) * n == -(q * n)
  {
  }

  lemma QuotientOf(size: nat, n: nat)
    requires n > 0
    ensures 0 <= size - size / n * n < n
    ensures size / n * n == size <==> size % n == 0
    ensures size / n >= 0 && (size / n == 0 <==> size < n)
  {
    assert size == size / n * n + size % n;
    if size >= n {
      QuotientIsPositive(size, n);
    }
  }

  lemma QuotientIsPositive(a: int, n: int)
    requires 0 < n <= a
    ensures a / n >= 1
  {
    var q := a / n;
    if q <= 0 {
      SmallProduct(n, q, a % n);
    }
  }

  lemma SmallProduct(n: int, q: int, r: int)
    requires n > 0 && r < n && q <= 0
    ensures n * q + r < n
  {
  }

  /**
   The transaction spends the funding output and pays recipient i by its script. With `fee` the rate
   times the virtual size of its own outputs, all shares are the same, and shares and fee together give
   the value of the input, but for a remainder of less than one satoshi per recipient.
   */
  ghost predicate SplitsFairly(
    bitcoin: Bitcoin, funding: Funding, feePerVbyte: int, recipients: seq<string>, tx: Transaction)
  {
    var n, fee := |recipients|, feePerVbyte * bitcoin.virtualSize(ScriptsOf(tx.outputs));
    && bitcoin.hash(funding.transactionHash) == Some(tx.input.hash)
    && tx.input.index == funding.outputIndex && tx.sequence == 0
    && |tx.outputs| == n
    && (forall i :: 0 <= i < n ==> bitcoin.script(recipients[i]) == Some(tx.outputs[i].script))
    && (forall i, j :: 0 <= i < n && 0 <= j < n ==> tx.outputs[i].value == tx.outputs[j].value)
    && (fee <= funding.value ==> 0 <= funding.value - (TotalValue(tx.outputs) + fee) < n)
    && (fee > funding.value ==> 0 <= TotalValue(tx.outputs) + fee - funding.value < n)
    && ((forall i :: 0 <= i < n ==> tx.outputs[i].value >= 0) <==> fee - funding.value < n)
  }

  lemma UnsignedTransactionSplitsFairly(
    bitcoin: Bitcoin, funding: Funding, feePerVbyte: int, recipients: seq<string>)
    requires |recipients| > 0
    ensures var unsigned := UnsignedTransaction(bitcoin, funding, feePerVbyte, recipients);
            unsigned.Some? ==> SplitsFairly(bitcoin, funding, feePerVbyte, recipients, unsigned.value)
  {
    var unsigned := UnsignedTransaction(bitcoin, funding, feePerVbyte, recipients);
    if unsigned.Some? {
      var scripts := Scripts(bitcoin, recipients);
      assert ScriptsOf(unsigned.value.outputs) == scripts;
      ValueIsConserved(funding.value, TransactionFee(bitcoin, feePerVbyte, recipients), scripts);
      hide GoDiv, TotalValue;
    }
  }

  /** The first loop: one output of no value for each recipient. */
  method AddOutputs(bitcoin: Bitcoin, recipients: seq<string>) returns (r: Result<seq<TxOut>, BuildError>)
    ensures r.Ok? <==> AllDecode(bitcoin, recipients)
    ensures r.Ok? ==> r.value == Outputs(0, Scripts(bitcoin, recipients))
    ensures r.Err? ==> r.error.BadRecipient? && r.error.address in recipients && bitcoin.script(r.error.address).None?
  {
    var outputs: seq<TxOut> := [];
    var i := 0;
    while i < |recipients|
      invariant 0 <= i <= |recipients|
      invariant AllDecode(bitcoin, recipients[..i])
      invariant outputs == Outputs(0, Scripts(bitcoin, recipients[..i]))
    {
      var script := bitcoin.script(recipients[i]);
      if script.None? {
        return Err(BadRecipient(recipients[i]));
      }
      outputs := outputs + [TxOut(0, script.value)];
      i := i + 1;
    }
    assert recipients[..i] == recipients;
    return Ok(outputs);
  }

  /** The last loop: the same value for every output. */
  method FillValues(outputs: seq<TxOut>, value: int) returns (r: seq<TxOut>)
    ensures r == Outputs(value, ScriptsOf(outputs))
  {
    r := outputs;
    var i := 0;
    while i < |r|
      invariant 0 <= i <= |r| == |outputs|
      invariant forall j :: 0 <= j < |r| ==> r[j] == if j < i then TxOut(value, outputs[j].script) else outputs[j]
    {
      r := r[i := r[i].(value := value)];
      i := i + 1;
    }
  }

  /** Go panics on an empty list, which it would divide by. */
  method ConstructUnsignedTransaction(
    bitcoin: Bitcoin, funding: Funding, feePerVbyte: int, recipients: seq<string>)
    returns (r: Result<Transaction, BuildError>)
    requires |recipients| > 0
    ensures r.Ok? <==> UnsignedTransaction(bitcoin, funding, feePerVbyte, recipients).Some?
    ensures r.Ok? ==> UnsignedTransaction(bitcoin, funding, feePerVbyte, recipients) == Some(r.value)
    ensures r.Err? && r.error.BadRecipient? ==> r.error.address in recipients && bitcoin.script(r.error.address).None?
    ensures r.Ok? <==> bitcoin.hash(funding.transactionHash).Some?
                       && forall i :: 0 <= i < |recipients| ==> bitcoin.script(recipients[i]).Some?
    ensures r.Ok? ==> SplitsFairly(bitcoin, funding, feePerVbyte, recipients, r.value)
  {
    var hash := bitcoin.hash(funding.transactionHash);
    if hash.None? {
      return Err(BadTransactionHash);
    }
    var added := AddOutputs(bitcoin, recipients);
    if added.Err? {
      return Err(added.error);
    }
    var outputs := added.value;
    assert ScriptsOf(outputs) == Scripts(bitcoin, recipients);
    var vsize := bitcoin.virtualSize(ScriptsOf(outputs));
    var fee := feePerVbyte * vsize;
    var perRecipientValue := GoDiv(funding.value - fee, |recipients|);
    outputs := FillValues(outputs, perRecipientValue);
    UnsignedTransactionSplitsFairly(bitcoin, funding, feePerVbyte, recipients);
    return Ok(Transaction(Outpoint(hash.value, funding.outputIndex), 0, outputs));
  }

  // ---- The whole recovery ----

  /** A fee some member resolved from nonnegative fetched and configured rates. */
  ghost predicate Resolved(fee: int) {
    exists fetched: nat, configured: nat, value: int :: fee == ResolvedVbyteFee(fetched, configured, value)
  }

  ghost predicate AllPositive(infos: seq<RecoveryInfo>) {
    forall k :: 0 <= k < |infos| ==> infos[k].maxFeePerVByte > 0
  }

  /**
   No member pays more than it allowed. Received rates are not checked, so the agreed rate is positive
   exactly when every rate sent is; those resolved from nonnegative fetched and configured rates are.
   */
  lemma AgreedFeeWithinEveryLimit(verdict: Verdict, infos: seq<RecoveryInfo>, valid: string -> bool)
    requires SpeaksFor(verdict, infos, valid) && verdict.Ok?
    ensures verdict.value.maxFeePerVByte > 0 <==> AllPositive(infos)
    ensures forall k :: 0 <= k < |infos| ==> verdict.value.maxFeePerVByte <= infos[k].maxFeePerVByte
    ensures (forall k :: 0 <= k < |infos| ==> Resolved(infos[k].maxFeePerVByte)) ==> AllPositive(infos)
  {
    if verdict.value.maxFeePerVByte in Fees(infos) {
      var k :| 0 <= k < |infos| && Fees(infos)[k] == verdict.value.maxFeePerVByte;
      assert infos[k].maxFeePerVByte == verdict.value.maxFeePerVByte;
    }
    forall fee | Resolved(fee) ensures fee > 0 {
    }
  }

  /**
   Two members of one group that complete the round with success build the same unsigned transaction.
   Its fee rate is within the limit of every member, and positive exactly when all their rates are.
   */
  lemma MembersBuildOneTransaction(
    net: Net, run: seq<Round>, steps: seq<RoundStep>, i: nat, j: nat, p: MemberID, q: MemberID,
    infos: seq<RecoveryInfo>, bitcoin: Bitcoin, funding: Funding)
    requires IsRoundRun(net, run, steps) && i < |run| && j < |run| && RoundStart(run[0])
    requires Completed(run[i], p) && Completed(run[j], q)
    requires Elements(run[i].members[p].group) == Elements(run[j].members[q].group)
    requires run[i].members[p].group != []
    requires OnePairEach(run[|steps|].sent, Elements(run[i].members[p].group))
    requires Sends(run[|steps|].sent, run[i].members[p].group, infos)
    ensures var v, w := run[i].members[p].phase.verdict, run[j].members[q].phase.verdict;
            && SameVerdict(v, w)
            && (v.Ok? ==>
                  && |v.value.btcAddresses| == |infos| > 0
                  && UnsignedTransaction(bitcoin, funding, v.value.maxFeePerVByte, v.value.btcAddresses)
                     == UnsignedTransaction(bitcoin, funding, w.value.maxFeePerVByte, w.value.btcAddresses)
                  && (var unsigned := UnsignedTransaction(
                        bitcoin, funding, v.value.maxFeePerVByte, v.value.btcAddresses);
                      unsigned.Some? ==>
                        SplitsFairly(bitcoin, funding, v.value.maxFeePerVByte, v.value.btcAddresses, unsigned.value))
                  && (0 < v.value.maxFeePerVByte <==> AllPositive(infos))
                  && forall k :: 0 <= k < |infos| ==> v.value.maxFeePerVByte <= infos[k].maxFeePerVByte)
  {
    MembersAgree(net, run, steps, i, j, p, q);
    VerdictSpeaksForTheGroup(net, run, steps, i, p, infos);
    var v := run[i].members[p].phase.verdict;
    if v.Ok? {
      AgreedFeeWithinEveryLimit(v, infos, net.valid);
      assert |multiset(v.value.btcAddresses)| == |multiset(Addresses(infos))|;
      UnsignedTransactionSplitsFairly(bitcoin, funding, v.value.maxFeePerVByte, v.value.btcAddresses);
      hide SplitsFairly, UnsignedTransaction, SpeaksFor;
    }
  }
}
