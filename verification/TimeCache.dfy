/**
 The time cache the client keeps answers of the chain in: each item with the time of its first
 insertion. Adding an item that is already there leaves its time alone; a sweep drops the items
 that are older than the caching period.
 */
module TimeCaches {

  function Swept(entries: map<string, int>, timespan: nat, now: int): (r: map<string, int>)
    ensures forall k :: k in r <==> k in entries && now - entries[k] <= timespan
    ensures forall k :: k in r ==> r[k] == entries[k]
  {
    map k | k in entries && now - entries[k] <= timespan :: entries[k]
  }

  function Added(entries: map<string, int>, item: string, now: int): (r: map<string, int>)
    ensures r.Keys == entries.Keys + {item}
    ensures forall k :: k in entries ==> r[k] == entries[k]
    ensures item !in entries ==> r[item] == now
  {
    if item in entries then entries else entries[item := now]
  }

  class TimeCache {
    const timespan: nat
    var entries: map<string, int>

    constructor (timespan: nat)
      ensures this.timespan == timespan && entries == map[]
    {
      this.timespan := timespan;
      entries := map[];
    }

    predicate Has(item: string)
      reads this
    {
      item in entries
    }

    method Add(item: string, now: int)
      modifies this
      ensures entries == Added(old(entries), item, now)
    {
      if item !in entries {
        entries := entries[item := now];
      }
    }

    method Sweep(now: int)
      modifies this
      ensures entries == Swept(old(entries), timespan, now)
    {
      entries := map k | k in entries && now - entries[k] <= timespan :: entries[k];
    }
  }
}
