/** The tracks of running event handlers, and the deduplicator that consults them. */
module EventTracking {
  import opened Wrappers
  import opened Registry

  /** The keys whose entry is true. */
  function TrueKeys<K>(data: map<K, bool>): set<K> {
    set k | k in data && data[k]
  }

  class UniqueEventTrack {
    var data: map<string, bool>

    function Tracked(): set<string>
      reads this
    {
      TrueKeys(data)
    }

    constructor ()
      ensures Tracked() == {}
    {
      data := map[];
    }

    method Add(keep: string) returns (added: bool)
      modifies this
      ensures added <==> keep !in old(Tracked())
      ensures Tracked() == old(Tracked()) + {keep}
    {
      if keep in data && data[keep] {
        return false;
      }
      data := data[keep := true];
      return true;
    }

    method Has(keep: string) returns (has: bool)
      ensures has <==> keep in Tracked()
    {
      return keep in data && data[keep];
    }

    method Remove(keep: string)
      modifies this
      ensures Tracked() == old(Tracked()) - {keep}
    {
      data := data - {keep};
    }
  }

  /** The pairs of keep and digest a nested track stands for. */
  function Pairs(data: map<string, map<string, bool>>): set<(string, string)> {
    set keep, digest | keep in data && digest in TrueKeys(data[keep]) :: (keep, digest)
  }

  lemma InPairs(data: map<string, map<string, bool>>, keep: string, digest: string)
    ensures (keep, digest) in Pairs(data) <==> keep in data && digest in data[keep] && data[keep][digest]
  {
  }

  /** Taking one digest out of the inner map takes one pair out of the set. */
  lemma PairsWithout(
    data: map<string, map<string, bool>>, after: map<string, map<string, bool>>, keep: string, digest: string)
    requires keep in data
    requires var inner := data[keep] - {digest}; after == if |inner| == 0 then data - {keep} else data[keep := inner]
    ensures Pairs(after) == Pairs(data) - {(keep, digest)}
  {
    hide Pairs;
    forall k, d ensures (k, d) in Pairs(after) <==> (k, d) in Pairs(data) && (k, d) != (keep, digest) {
      InPairs(data, k, d);
      InPairs(after, k, d);
    }
    forall pair: (string, string) ensures pair in Pairs(after) <==> pair in Pairs(data) - {(keep, digest)} {
      var (k, d) := pair;
    }
  }

  /** The signature requests in progress, by keep and then by digest. */
  class RequestedSignaturesTrack {
    var data: map<string, map<string, bool>>

    function Tracked(): set<(string, string)>
      reads this
    {
      Pairs(data)
    }

    /** No inner map is empty, and only true is ever stored. */
    predicate Valid()
      reads this
    {
      forall keep :: keep in data ==> data[keep] != map[] && TrueKeys(data[keep]) == data[keep].Keys
    }

    constructor ()
      ensures Valid() && Tracked() == {}
    {
      data := map[];
    }

    method Add(keep: string, digest: string) returns (added: bool)
      requires Valid()
      modifies this
      ensures Valid()
      ensures added <==> (keep, digest) !in old(Tracked())
      ensures Tracked() == old(Tracked()) + {(keep, digest)}
    {
      if keep !in data {
        assert TrueKeys(map[digest := true]) == {digest};
        data := data[keep := map[digest := true]];
        return true;
      }
      var requests := data[keep];
      if digest in requests && requests[digest] {
        return false;
      }
      data := data[keep := requests[digest := true]];
      return true;
    }

    method Has(keep: string, digest: string) returns (has: bool)
      requires Valid()
      ensures has <==> (keep, digest) in Tracked()
    {
      if keep !in data {
        return false;
      }
      return digest in data[keep] && data[keep][digest];
    }

    method Remove(keep: string, digest: string)
      requires Valid()
      modifies this
      ensures Valid()
      ensures Tracked() == old(Tracked()) - {(keep, digest)}
    {
      hide Pairs;
      InPairs(data, keep, digest);
      if keep in data {
        var requests := data[keep] - {digest};
        ghost var before := data;
        if |requests| == 0 {
          data := data - {keep};
        } else {
          data := data[keep := requests];
        }
        PairsWithout(before, data, keep, digest);
      }
    }
  }

  /** Called from one goroutine at a time; what other goroutines can do in between is modelled by Handlers. */
  class Deduplicator {
    const keepRegistry: Keeps
    const keyGenKeeps: UniqueEventTrack
    const requestedSignatures: RequestedSignaturesTrack
    const closingKeeps: UniqueEventTrack
    const terminatingKeeps: UniqueEventTrack

    predicate Valid()
      reads this, requestedSignatures
    {
      && requestedSignatures.Valid()
      && keyGenKeeps != closingKeeps && keyGenKeeps != terminatingKeeps && closingKeeps != terminatingKeeps
    }

    constructor (keepRegistry: Keeps)
      ensures Valid() && this.keepRegistry == keepRegistry
      ensures fresh(keyGenKeeps) && fresh(requestedSignatures) && fresh(closingKeeps) && fresh(terminatingKeeps)
      ensures keyGenKeeps.Tracked() == closingKeeps.Tracked() == terminatingKeeps.Tracked() == {}
      ensures requestedSignatures.Tracked() == {}
    {
      this.keepRegistry := keepRegistry;
      var keyGen := new UniqueEventTrack();
      var signatures := new RequestedSignaturesTrack();
      var closing := new UniqueEventTrack();
      var terminating := new UniqueEventTrack();
      keyGenKeeps, requestedSignatures, closingKeeps, terminatingKeeps := keyGen, signatures, closing, terminating;
    }

    method NotifyKeyGenStarted(keep: KeepID) returns (proceed: bool)
      modifies keyGenKeeps
      ensures var name := keepRegistry.codec.name(keep);
              && (proceed <==> name !in old(keyGenKeeps.Tracked()) && !keepRegistry.HasSigner(keep))
              && keyGenKeeps.Tracked() == old(keyGenKeeps.Tracked()) + (if proceed then {name} else {})
    {
      var name := keepRegistry.codec.name(keep);
      var has := keyGenKeeps.Has(name);
      if has {
        return false;
      }
      if keepRegistry.HasSigner(keep) {
        return false;
      }
      proceed := keyGenKeeps.Add(name);
    }

    method NotifyKeyGenCompleted(keep: KeepID)
      modifies keyGenKeeps
      ensures keyGenKeeps.Tracked() == old(keyGenKeeps.Tracked()) - {keepRegistry.codec.name(keep)}
    {
      keyGenKeeps.Remove(keepRegistry.codec.name(keep));
    }

    /** `awaiting` is the chain's confirmed answer; None when it could not be asked. */
    method NotifySigningStarted(keep: KeepID, digest: string, awaiting: Option<bool>) returns (r: Result<bool, ()>)
      requires Valid()
      modifies requestedSignatures
      ensures Valid()
      ensures var key := (keepRegistry.codec.name(keep), digest);
              var tracked := key in old(requestedSignatures.Tracked());
              && (r.Err? <==> !tracked && awaiting.None?)
              && (r.Ok? ==> (r.value <==> !tracked && awaiting == Some(true)))
              && requestedSignatures.Tracked()
                 == old(requestedSignatures.Tracked()) + (if r == Ok(true) then {key} else {})
    {
      var name := keepRegistry.codec.name(keep);
      var has := requestedSignatures.Has(name, digest);
      if has {
        return Ok(false);
      }
      if awaiting.None? {
        return Err(());
      }
      if !awaiting.value {
        return Ok(false);
      }
      var added := requestedSignatures.Add(name, digest);
      return Ok(added);
    }

    method NotifySigningCompleted(keep: KeepID, digest: string)
      requires Valid()
      modifies requestedSignatures
      ensures Valid()
      ensures requestedSignatures.Tracked()
           == old(requestedSignatures.Tracked()) - {(keepRegistry.codec.name(keep), digest)}
    {
      requestedSignatures.Remove(keepRegistry.codec.name(keep), digest);
    }

    method NotifyClosingStarted(keep: KeepID) returns (proceed: bool)
      modifies closingKeeps
      ensures var name := keepRegistry.codec.name(keep);
              && (proceed <==> name !in old(closingKeeps.Tracked()) && keepRegistry.HasSigner(keep))
              && closingKeeps.Tracked() == old(closingKeeps.Tracked()) + (if proceed then {name} else {})
    {
      var name := keepRegistry.codec.name(keep);
      var has := closingKeeps.Has(name);
      if has {
        return false;
      }
      if !keepRegistry.HasSigner(keep) {
        return false;
      }
      proceed := closingKeeps.Add(name);
    }

    method NotifyClosingCompleted(keep: KeepID)
      modifies closingKeeps
      ensures closingKeeps.Tracked() == old(closingKeeps.Tracked()) - {keepRegistry.codec.name(keep)}
    {
      closingKeeps.Remove(keepRegistry.codec.name(keep));
    }

    method NotifyTerminatingStarted(keep: KeepID) returns (proceed: bool)
      modifies terminatingKeeps
      ensures var name := keepRegistry.codec.name(keep);
              && (proceed <==> name !in old(terminatingKeeps.Tracked()) && keepRegistry.HasSigner(keep))
              && terminatingKeeps.Tracked() == old(terminatingKeeps.Tracked()) + (if proceed then {name} else {})
    {
      var name := keepRegistry.codec.name(keep);
      var has := terminatingKeeps.Has(name);
      if has {
        return false;
      }
      if !keepRegistry.HasSigner(keep) {
        return false;
      }
      proceed := terminatingKeeps.Add(name);
    }

    method NotifyTerminatingCompleted(keep: KeepID)
      modifies terminatingKeeps
      ensures terminatingKeeps.Tracked() == old(terminatingKeeps.Tracked()) - {keepRegistry.codec.name(keep)}
    {
      terminatingKeeps.Remove(keepRegistry.codec.name(keep));
    }
  }
}
