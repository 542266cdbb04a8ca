/** Pulling past events: in one request, or in batches when the node refuses the full range. */
module EventPulls {
  import opened Wrappers

  const GET_PAST_EVENTS_BLOCK_INTERVAL := 2000

  datatype Event<+T> = Event(block: nat, data: T)

  datatype ToBlock = Latest | Block(number: int)

  datatype PullError = NegativeFromBlock | BadToBlock | RequestFailed

  /** Events come in the order of their blocks. */
  predicate Ordered<T>(events: seq<Event<T>>) {
    forall i, j :: 0 <= i < j < |events| ==> events[i].block <= events[j].block
  }

  /** The node's answer to one request. */
  function Between<T>(events: seq<Event<T>>, first: int, last: int): seq<Event<T>> {
    if events == [] then []
    else (if first <= events[0].block <= last then [events[0]] else []) + Between(events[1..], first, last)
  }

  lemma {:induction false} NoneBetween<T>(events: seq<Event<T>>, first: int, last: int)
    requires forall i :: 0 <= i < |events| ==> events[i].block > last || events[i].block < first
    ensures Between(events, first, last) == []
  {
    if events != [] {
      NoneBetween(events[1..], first, last);
    }
  }

  lemma EmptyRange<T>(events: seq<Event<T>>, first: int, last: int)
    requires last < first
    ensures Between(events, first, last) == []
  {
    NoneBetween(events, first, last);
  }

  /** Two adjacent ranges give the events of the whole range, in order. */
  lemma {:induction false} AdjacentRanges<T>(events: seq<Event<T>>, first: int, middle: int, last: int)
    requires Ordered(events) && first <= middle + 1 <= last + 1
    ensures Between(events, first, middle) + Between(events, middle + 1, last) == Between(events, first, last)
  {
    if events != [] {
      AdjacentRanges(events[1..], first, middle, last);
      if events[0].block > middle {
        NoneBetween(events[1..], first, middle);
        NoneBetween(events, first, middle);
      }
    }
  }

  /** Which requests the node answers: the full range, the block number, the batch starting at a block. */
  datatype Node = Node(fullRange: bool, blockNumber: Option<nat>, batch: nat -> bool)

  predicate BatchesSucceed(node: Node, first: nat, last: int)
    decreases last - first
  {
    first > last || (node.batch(first) && BatchesSucceed(node, first + GET_PAST_EVENTS_BLOCK_INTERVAL + 1, last))
  }

  /** Each batch of the range is asked for: one starts 2001 blocks after the other. */
  ghost predicate EveryBatchAnswers(node: Node, first: nat, last: int) {
    forall k: nat :: BatchStart(first, k) <= last ==> node.batch(BatchStart(first, k))
  }

  function BatchStart(first: nat, k: nat): nat {
    first + 2001 * k
  }

  lemma {:induction false} BatchesSucceedExactly(node: Node, first: nat, last: int)
    ensures BatchesSucceed(node, first, last) <==> EveryBatchAnswers(node, first, last)
    decreases last - first
  {
    if first <= last {
      BatchesSucceedExactly(node, first + 2001, last);
      assert BatchStart(first, 0) == first;
      if EveryBatchAnswers(node, first, last) {
        var next := first + 2001;
        forall k: nat | BatchStart(next, k) <= last ensures node.batch(BatchStart(next, k)) {
          assert BatchStart(next, k) == BatchStart(first, k + 1);
        }
      }
      if BatchesSucceed(node, first, last) {
        forall k: nat | BatchStart(first, k) <= last ensures node.batch(BatchStart(first, k)) {
          if k > 0 {
            assert BatchStart(first, k) == BatchStart(first + 2001, k - 1);
          }
        }
      }
    }
  }

  predicate BadArguments(fromBlock: int, toBlock: ToBlock) {
    fromBlock < 0 || (toBlock.Block? && toBlock.number < fromBlock)
  }

  /** The pull fails for bad arguments, or when the node refuses the full range and then something else. */
  predicate Fails(node: Node, fromBlock: int, toBlock: ToBlock) {
    BadArguments(fromBlock, toBlock)
    || (!node.fullRange
        && match toBlock
           case Block(number) => !BatchesSucceed(node, fromBlock, number)
           case Latest => node.blockNumber.None? || !BatchesSucceed(node, fromBlock, node.blockNumber.value))
  }

  lemma NoBatches(node: Node, first: nat, last: int)
    requires first > last
    ensures BatchesSucceed(node, first, last)
  {
  }

  function BatchEnd(first: nat, last: int): int {
    if first + GET_PAST_EVENTS_BLOCK_INTERVAL > last then last else first + GET_PAST_EVENTS_BLOCK_INTERVAL
  }

  lemma NextBatch(node: Node, first: nat, last: int)
    requires first <= last
    ensures first <= BatchEnd(first, last) <= last
    ensures var full := first + GET_PAST_EVENTS_BLOCK_INTERVAL; BatchEnd(first, last) == if full > last then last else full
    ensures BatchesSucceed(node, first, last)
       <==> node.batch(first) && BatchesSucceed(node, BatchEnd(first, last) + 1, last)
  {
  }

  /** The batching loop: each batch starts one block after the end of the batch before. */
  method PullInBatches<T>(events: seq<Event<T>>, node: Node, fromBlock: nat, last: int)
    returns (r: Result<seq<Event<T>>, PullError>)
    requires Ordered(events)
    ensures BatchesSucceed(node, fromBlock, last) ==> r == Ok(Between(events, fromBlock, last))
    ensures !BatchesSucceed(node, fromBlock, last) ==> r == Err(RequestFailed)
    ensures r.Ok? <==> EveryBatchAnswers(node, fromBlock, last)
  {
    BatchesSucceedExactly(node, fromBlock, last);
    hide EveryBatchAnswers;
    hide Between, Ordered, BatchesSucceed, BatchEnd;
    EmptyRange(events, fromBlock, fromBlock - 1);
    var resultEvents: seq<Event<T>> := [];
    var batchStartBlock := fromBlock;
    while batchStartBlock <= last
      invariant batchStartBlock >= fromBlock && (batchStartBlock == fromBlock || batchStartBlock <= last + 1)
      invariant resultEvents == Between(events, fromBlock, batchStartBlock - 1)
      invariant BatchesSucceed(node, fromBlock, last) <==> BatchesSucceed(node, batchStartBlock, last)
      decreases last - batchStartBlock
    {
      NextBatch(node, batchStartBlock, last);
      var batchEndBlock: int := batchStartBlock + GET_PAST_EVENTS_BLOCK_INTERVAL;
      if batchEndBlock > last {
        batchEndBlock := last;
      }
      assert batchEndBlock == BatchEnd(batchStartBlock, last);
      if !node.batch(batchStartBlock) {
        return Err(RequestFailed);
      }
      var foundEvents := Between(events, batchStartBlock, batchEndBlock);
      AdjacentRanges(events, fromBlock, batchStartBlock - 1, batchEndBlock);
      resultEvents := resultEvents + foundEvents;
      batchStartBlock := batchEndBlock + 1;
    }
    NoBatches(node, batchStartBlock, last);
    if fromBlock > last {
      EmptyRange(events, fromBlock, last);
    }
    return Ok(resultEvents);
  }

  /**
   `head` is the number of the latest block during the pull. Whichever way the events are pulled, the
   result is the list of the whole range.
   */
  method GetPastEvents<T>(events: seq<Event<T>>, head: nat, node: Node, fromBlock: int, toBlock: ToBlock)
    returns (r: Result<seq<Event<T>>, PullError>)
    requires Ordered(events)
    requires node.blockNumber.Some? ==> node.blockNumber.value == head
    ensures r.Err? <==> Fails(node, fromBlock, toBlock)
    ensures r.Ok? ==> r.value == Between(events, fromBlock, if toBlock.Latest? then head else toBlock.number)
    ensures r == Err(RequestFailed) <==> r.Err? && !BadArguments(fromBlock, toBlock)
    ensures r == Err(NegativeFromBlock) <==> fromBlock < 0
    ensures r == Err(BadToBlock) <==> fromBlock >= 0 && toBlock.Block? && toBlock.number < fromBlock
    ensures fromBlock >= 0 && (toBlock.Block? ==> fromBlock <= toBlock.number) ==>
              (r.Ok? <==>
               || node.fullRange
               || (toBlock.Block? && EveryBatchAnswers(node, fromBlock, toBlock.number))
               || (toBlock.Latest? && node.blockNumber.Some? && EveryBatchAnswers(node, fromBlock, head)))
  {
    if fromBlock < 0 {
      return Err(NegativeFromBlock);
    }
    if toBlock.Block? && toBlock.number < fromBlock {
      return Err(BadToBlock);
    }
    if node.fullRange {
      return Ok(Between(events, fromBlock, if toBlock.Latest? then head else toBlock.number));
    }
    var last: int;
    match toBlock {
      case Latest =>
        if node.blockNumber.None? {
          return Err(RequestFailed);
        }
        last := node.blockNumber.value;
      case Block(number) =>
        last := number;
    }
    r := PullInBatches(events, node, fromBlock, last);
  }

  /** The events pulled are those of the range: each event of it, and nothing else. */
  lemma {:induction false} BetweenExactly<T>(events: seq<Event<T>>, first: int, last: int, e: Event<T>)
    ensures e in Between(events, first, last) <==> e in events && first <= e.block <= last
  {
    if events != [] {
      BetweenExactly(events[1..], first, last, e);
      assert events == [events[0]] + events[1..];
    }
  }
}
