/**
 The storage of used derivation indexes: one directory per truncated key, one empty file named after
 the last used index. The counter must never move back, or an address would be used twice.
 */
module DerivationIndex {
  import opened Wrappers

  const HARDENED := 0x8000_0000
  const TWO_TO_THE_32 := 0x1_0000_0000

  // ---- The directory of a key ----

  predicate IsSpace(c: char) {
    9 <= c as int <= 13 || c as int in {32, 0x85, 0xA0}
  }

  function TrimLeft(s: string): string {
    if s != [] && IsSpace(s[0]) then TrimLeft(s[1..]) else s
  }

  function TrimRight(s: string): string {
    if s != [] && IsSpace(s[|s| - 1]) then TrimRight(s[..|s| - 1]) else s
  }

  function TrimSpace(s: string): string {
    TrimRight(TrimLeft(s))
  }

  /** The name of the key's directory; None for a key that is too short. */
  function TruncatedKey(extendedPublicKey: string): Option<string> {
    var trimmed := TrimSpace(extendedPublicKey);
    if |trimmed| < 12 then None else Some(trimmed[..4] + "_" + trimmed[|trimmed| - 8..])
  }

  predicate AllSpaces(s: string) { forall i :: 0 <= i < |s| ==> IsSpace(s[i]) }

  lemma {:induction false} TrimLeftSplits(s: string)
    ensures exists left :: s == left + TrimLeft(s) && AllSpaces(left)
    ensures TrimLeft(s) == [] || !IsSpace(TrimLeft(s)[0])
  {
    if s != [] && IsSpace(s[0]) {
      TrimLeftSplits(s[1..]);
      var left :| s[1..] == left + TrimLeft(s[1..]) && AllSpaces(left);
      assert s == ([s[0]] + left) + TrimLeft(s);
    } else {
      assert s == [] + TrimLeft(s);
    }
  }

  lemma {:induction false} TrimRightSplits(s: string)
    ensures exists right :: s == TrimRight(s) + right && AllSpaces(right)
    ensures TrimRight(s) == [] || !IsSpace(TrimRight(s)[|TrimRight(s)| - 1])
  {
    if s != [] && IsSpace(s[|s| - 1]) {
      var rest := s[..|s| - 1];
      TrimRightSplits(rest);
      var right :| rest == TrimRight(rest) + right && AllSpaces(right);
      assert s == TrimRight(s) + (right + [s[|s| - 1]]);
    } else {
      assert s == TrimRight(s) + [];
    }
  }

  /** The key without the spaces around it: it neither begins nor ends with one. */
  ghost predicate IsTrimmed(trimmed: string, s: string) {
    && (trimmed == [] || (!IsSpace(trimmed[0]) && !IsSpace(trimmed[|trimmed| - 1])))
    && exists left, right :: s == left + trimmed + right && AllSpaces(left) && AllSpaces(right)
  }

  lemma TrimSpaceTrims(s: string)
    ensures IsTrimmed(TrimSpace(s), s)
  {
    hide TrimLeft, TrimRight, AllSpaces;
    var rest, trimmed := TrimLeft(s), TrimSpace(s);
    TrimLeftSplits(s);
    TrimRightSplits(rest);
    var left :| s == left + rest && AllSpaces(left);
    var right :| rest == trimmed + right && AllSpaces(right);
    assert s == left + trimmed + right;
    if trimmed != [] {
      assert trimmed[0] == rest[0];
    }
  }

  /** The directory is named after the first four and the last eight characters of the trimmed key. */
  lemma TruncatedKeyExactly(extendedPublicKey: string) returns (trimmed: string)
    ensures IsTrimmed(trimmed, extendedPublicKey)
    ensures TruncatedKey(extendedPublicKey).Some? <==> |trimmed| >= 12
    ensures |trimmed| >= 12 ==>
              TruncatedKey(extendedPublicKey).value == trimmed[..4] + "_" + trimmed[|trimmed| - 8..]
  {
    trimmed := TrimSpace(extendedPublicKey);
    TrimSpaceTrims(extendedPublicKey);
  }

  // ---- The files of one directory ----

  /** The numbers among the file names, in the order they are listed, and whether some name is no number. */
  datatype Dir = Dir(indexes: seq<int>, foreign: bool)

  type Dirs = map<string, Dir>

  /** Which file operations of one save succeed. */
  datatype SaveFaults = SaveFaults(ensured: bool, listed: bool, unremovable: set<int>, written: bool)

  const NO_FAULTS := SaveFaults(true, true, {}, true)

  function Files(dirs: Dirs, key: string): Dir {
    if key in dirs then dirs[key] else Dir([], false)
  }

  /** Go compares the file's number as an unsigned 32-bit integer. */
  predicate IsKept(file: int, index: nat, faults: SaveFaults) {
    file % TWO_TO_THE_32 >= index || file in faults.unremovable
  }

  function Kept(indexes: seq<int>, index: nat, faults: SaveFaults): (r: seq<int>)
    ensures forall f :: f in r <==> f in indexes && IsKept(f, index, faults)
  {
    if indexes == [] then []
    else
      var last := indexes[|indexes| - 1];
      assert indexes == indexes[..|indexes| - 1] + [last];
      Kept(indexes[..|indexes| - 1], index, faults) + (if IsKept(last, index, faults) then [last] else [])
  }

  lemma NoneKept(files: seq<int>, index: nat, faults: SaveFaults)
    ensures Kept(files[..0], index, faults) == [] && [] + files[0..] == files
  {
  }

  /** Looking at one more file keeps it, or takes it out of the middle of the list. */
  lemma OneMore(files: seq<int>, i: nat, index: nat, faults: SaveFaults)
    requires i < |files|
    ensures var kept := Kept(files[..i], index, faults);
            var left := kept + files[i..];
            && IsKept(files[i], index, faults) == !(files[i] % TWO_TO_THE_32 < index && files[i] !in faults.unremovable)
            && Kept(files[..i + 1], index, faults) == kept + (if IsKept(files[i], index, faults) then [files[i]] else [])
            && left[..|kept|] + left[|kept| + 1..] == kept + files[i + 1..]
            && left == (kept + [files[i]]) + files[i + 1..]
  {
    assert files[..i + 1][..i] == files[..i];
  }

  function Written(indexes: seq<int>, index: nat): seq<int> {
    if index in indexes then indexes else indexes + [index]
  }

  function SaveAfter(dir: Dir, index: nat, faults: SaveFaults): Dir {
    if !faults.ensured then dir
    else
      var kept := if faults.listed then Kept(dir.indexes, index, faults) else dir.indexes;
      dir.(indexes := if faults.written then Written(kept, index) else kept)
  }

  /** The number is stored exactly after a success, and a smaller one that could be removed is gone. */
  ghost predicate SavedExactly(before: Dir, after: Dir, index: nat, faults: SaveFaults) {
    && after.foreign == before.foreign
    && forall f :: f in after.indexes <==>
         || (f == index && Saves(faults))
         || (f in before.indexes
             && !(faults.ensured && faults.listed && f % TWO_TO_THE_32 < index && f !in faults.unremovable))
  }

  lemma SaveIsExact(dir: Dir, index: nat, faults: SaveFaults)
    ensures SavedExactly(dir, SaveAfter(dir, index, faults), index, faults)
  {
  }

  predicate Saves(faults: SaveFaults) { faults.ensured && faults.written }

  /** The greatest stored index, or -1. */
  function LastIndex(indexes: seq<int>): (r: int)
    ensures r >= -1 && (r == -1 || r in indexes)
    ensures forall f :: f in indexes ==> f <= r
  {
    if indexes == [] then -1
    else
      var last := indexes[|indexes| - 1];
      var before := LastIndex(indexes[..|indexes| - 1]);
      assert indexes == indexes[..|indexes| - 1] + [last];
      if last > before then last else before
  }

  // ---- Looking for an address ----

  /**
   The wallet's derivation, and whether the Bitcoin node takes an address for unused; when the node
   cannot be asked, the value it returned beside the error counts.
   */
  datatype Wallet = Wallet(derive: nat -> Option<string>, unused: string -> bool) {
    /** Hardened indexes cannot be derived from a public key. */
    ghost predicate Valid() { forall i: nat :: i >= HARDENED ==> derive(i).None? }
  }

  datatype Failure = ShortKey | DirectoryFailed | NotANumber | NotDerived | NotSaved

  datatype Found = Found(address: string, index: nat)

  function Search(wallet: Wallet, index: nat): Result<Found, Failure>
    requires wallet.Valid()
    decreases HARDENED - index
  {
    var derived := wallet.derive(index);
    if derived.None? then Err(NotDerived)
    else if wallet.unused(derived.value) then Ok(Found(derived.value, index))
    else Search(wallet, index + 1)
  }

  /** A real call saves every index it looks at. */
  function Claim(dir: Dir, wallet: Wallet, faults: nat -> SaveFaults, index: nat): (Dir, Result<Found, Failure>)
    requires wallet.Valid()
    decreases HARDENED - index
  {
    var derived := wallet.derive(index);
    if derived.None? then (dir, Err(NotDerived))
    else
      var saved := SaveAfter(dir, index, faults(index));
      if !Saves(faults(index)) then (saved, Err(NotSaved))
      else if wallet.unused(derived.value) then (saved, Ok(Found(derived.value, index)))
      else Claim(saved, wallet, faults, index + 1)
  }

  function StartIndex(last: int): nat { (last + 1) % TWO_TO_THE_32 }

  /** A call, with the outcome of each file operation it may do. */
  datatype Call = Call(
    extendedPublicKey: string, wallet: Wallet, isDryRun: bool,
    statted: bool, listed: bool, faults: nat -> SaveFaults)

  function CallAfter(dirs: Dirs, call: Call): (Dirs, Result<Found, Failure>)
    requires call.wallet.Valid()
  {
    var truncated := TruncatedKey(call.extendedPublicKey);
    if truncated.None? then (dirs, Err(ShortKey))
    else
      var key := truncated.value;
      var dir := Files(dirs, key);
      if !call.statted || (key in dirs && !call.listed) then (dirs, Err(DirectoryFailed))
      else if dir.foreign then (dirs, Err(NotANumber))
      else
        var start := StartIndex(LastIndex(dir.indexes));
        if call.isDryRun then (dirs, Search(call.wallet, start))
        else
          var claimed := Claim(dir, call.wallet, call.faults, start);
          (dirs[key := claimed.0], claimed.1)
  }

  ghost predicate SameFiles(a: Dirs, b: Dirs) {
    forall key :: Files(a, key) == Files(b, key)
  }

  // ---- What a call finds ----

  /** One above the greatest stored number, as an unsigned 32-bit integer. */
  ghost predicate FollowsStored(start: nat, indexes: seq<int>) {
    exists last :: IsGreatest(last, indexes) && start == (last + 1) % TWO_TO_THE_32
  }

  /** The greatest of the numbers and -1. */
  predicate IsGreatest(last: int, indexes: seq<int>) {
    last >= -1 && (last == -1 || last in indexes) && forall f :: f in indexes ==> f <= last
  }

  /** From `start` on, every index below `i` is derivable and its address used. */
  predicate AllUsed(wallet: Wallet, start: nat, i: nat) {
    forall j: nat :: start <= j < i ==> wallet.derive(j).Some? && !wallet.unused(wallet.derive(j).value)
  }

  predicate FirstUnused(wallet: Wallet, start: nat, i: nat, address: string) {
    start <= i && AllUsed(wallet, start, i) && wallet.derive(i) == Some(address) && wallet.unused(address)
  }

  /** Every index from `start` up to but not including `i` could be saved. */
  predicate AllSaved(faults: nat -> SaveFaults, start: nat, i: nat) {
    forall j: nat :: start <= j < i ==> faults(j).ensured && faults(j).written
  }

  /** A dry run saves nothing, so nothing can fail to be saved. */
  predicate Passes(call: Call, start: nat, i: nat) { call.isDryRun || AllSaved(call.faults, start, i) }

  /** The call ends at index `i` with this result. */
  ghost predicate EndsAt(call: Call, start: nat, i: nat, r: Result<string, Failure>) {
    && start <= i && AllUsed(call.wallet, start, i) && Passes(call, start, i)
    && match r
       case Ok(address) => FirstUnused(call.wallet, start, i, address) && Passes(call, start, i + 1)
       case Err(NotDerived) => call.wallet.derive(i).None?
       case Err(NotSaved) => call.wallet.derive(i).Some? && !Passes(call, start, i + 1)
       case Err(_) => false
  }

  /** A call ends in one place and in one way: the result is determined by what it ends with. */
  lemma EndsOnce(call: Call, start: nat, i: nat, r: Result<string, Failure>, j: nat, q: Result<string, Failure>)
    requires EndsAt(call, start, i, r) && EndsAt(call, start, j, q)
    ensures i == j && r == q
  {
  }

  lemma {:induction false} SearchEnds(call: Call, start: nat, index: nat)
    requires call.wallet.Valid() && call.isDryRun && start <= index && AllUsed(call.wallet, start, index)
    ensures exists i :: EndsAt(call, start, i, Address(Search(call.wallet, index)))
    ensures var r := Search(call.wallet, index); r.Ok? || r.error == NotDerived
    decreases HARDENED - index
  {
    var derived := call.wallet.derive(index);
    if derived.Some? && !call.wallet.unused(derived.value) {
      SearchEnds(call, start, index + 1);
      assert Search(call.wallet, index) == Search(call.wallet, index + 1);
    } else {
      assert EndsAt(call, start, index, Address(Search(call.wallet, index)));
    }
  }

  lemma {:induction false} ClaimEnds(call: Call, start: nat, dir: Dir, index: nat)
    requires call.wallet.Valid() && !call.isDryRun
    requires start <= index && AllUsed(call.wallet, start, index) && AllSaved(call.faults, start, index)
    ensures exists i :: EndsAt(call, start, i, Address(Claim(dir, call.wallet, call.faults, index).1))
    ensures var r := Claim(dir, call.wallet, call.faults, index).1; r.Ok? || r.error in {NotDerived, NotSaved}
    decreases HARDENED - index
  {
    hide SaveAfter;
    var derived := call.wallet.derive(index);
    if derived.Some? && Saves(call.faults(index)) && !call.wallet.unused(derived.value) {
      var saved := SaveAfter(dir, index, call.faults(index));
      ClaimEnds(call, start, saved, index + 1);
      assert Claim(dir, call.wallet, call.faults, index) == Claim(saved, call.wallet, call.faults, index + 1);
    } else {
      assert EndsAt(call, start, index, Address(Claim(dir, call.wallet, call.faults, index).1));
    }
  }

  lemma StartFollowsStored(indexes: seq<int>)
    ensures FollowsStored(StartIndex(LastIndex(indexes)), indexes)
  {
    assert IsGreatest(LastIndex(indexes), indexes);
  }

  /** The clean-up loop over the listed files. */
  method RemoveOld(files: seq<int>, index: nat, faults: SaveFaults) returns (left: seq<int>)
    ensures left == Kept(files, index, faults)
  {
    hide Kept, IsKept;
    left := files;
    var at, i := 0, 0;
    NoneKept(files, index, faults);
    while i < |files|
      invariant 0 <= at <= i <= |files|
      invariant at == |Kept(files[..i], index, faults)|
      invariant left == Kept(files[..i], index, faults) + files[i..]
    {
      OneMore(files, i, index, faults);
      if files[i] % TWO_TO_THE_32 < index && files[i] !in faults.unremovable {
        left := left[..at] + left[at + 1..];
      } else {
        at := at + 1;
      }
      i := i + 1;
    }
    assert files[..i] == files && Kept(files, index, faults) + files[i..] == Kept(files, index, faults);
  }

  class DerivationIndexStorage {
    var directories: Dirs

    constructor ()
      ensures directories == map[]
    {
      directories := map[];
    }

    /** The loop over the directory entries. */
    method Read(key: string, listed: bool) returns (r: Result<int, Failure>)
      requires key in directories
      ensures r.Ok? <==> listed && !directories[key].foreign
      ensures r.Ok? ==> r.value == LastIndex(directories[key].indexes)
      ensures r.Err? ==> r.error == if !listed then DirectoryFailed else NotANumber
    {
      if !listed {
        return Err(DirectoryFailed);
      }
      if directories[key].foreign {
        return Err(NotANumber);
      }
      var index: int := -1;
      var files := directories[key].indexes;
      var i := 0;
      while i < |files|
        invariant 0 <= i <= |files|
        invariant index == LastIndex(files[..i])
      {
        assert files[..i + 1][..i] == files[..i];
        if files[i] > index {
          index := files[i];
        }
        i := i + 1;
      }
      assert files[..i] == files;
      return Ok(index);
    }

    method Save(key: string, index: nat, faults: SaveFaults) returns (saved: bool)
      modifies this
      ensures saved <==> Saves(faults)
      ensures directories
           == if faults.ensured then old(directories)[key := SaveAfter(Files(old(directories), key), index, faults)]
              else old(directories)
      ensures SavedExactly(Files(old(directories), key), Files(directories, key), index, faults)
      ensures directories - {key} == old(directories) - {key}
    {
      SaveIsExact(Files(directories, key), index, faults);
      hide SavedExactly, Kept, IsKept;
      if !faults.ensured {
        return false;
      }
      if key !in directories {
        directories := directories[key := Dir([], false)];
      }
      if faults.listed {
        var indexes := RemoveOld(directories[key].indexes, index, faults);
        directories := directories[key := directories[key].(indexes := indexes)];
      }
      if faults.written && index !in directories[key].indexes {
        directories := directories[key := directories[key].(indexes := directories[key].indexes + [index])];
      }
      return faults.written;
    }

    /** The loop ends because hardened indexes are refused, long before 32 bits could overflow. */
    method TryAddresses(key: string, wallet: Wallet, isDryRun: bool, start: nat, faults: nat -> SaveFaults)
      returns (r: Result<string, Failure>)
      requires wallet.Valid()
      modifies this
      ensures isDryRun ==> directories == old(directories) && r == Address(Search(wallet, start))
      ensures !isDryRun ==>
        && Files(directories, key) == Claim(Files(old(directories), key), wallet, faults, start).0
        && r == Address(Claim(Files(old(directories), key), wallet, faults, start).1)
        && directories - {key} == old(directories) - {key}
    {
      hide SaveAfter;
      var index := start;
      while true
        invariant index <= HARDENED || index == start
        invariant Search(wallet, start) == Search(wallet, index)
        invariant isDryRun ==> directories == old(directories)
        invariant !isDryRun ==>
          && Claim(Files(old(directories), key), wallet, faults, start)
             == Claim(Files(directories, key), wallet, faults, index)
          && directories - {key} == old(directories) - {key}
        decreases HARDENED - index
      {
        var derived := wallet.derive(index);
        if derived.None? {
          return Err(NotDerived);
        }
        var ok := wallet.unused(derived.value);
        if !isDryRun {
          NotEnsured(Files(directories, key), index, faults(index));
          var saved := Save(key, index, faults(index));
          if !saved {
            return Err(NotSaved);
          }
        }
        if ok {
          return Ok(derived.value);
        }
        index := index + 1;
      }
    }

    /** One call under the mutex. */
    method GetNextAddress(call: Call) returns (r: Result<string, Failure>)
      requires call.wallet.Valid()
      modifies this
      ensures r == Address(CallAfter(old(directories), call).1)
      ensures SameFiles(directories, CallAfter(old(directories), call).0)
      ensures call.isDryRun ==> directories == old(directories)
      // what was found, from the wallet and the stored numbers alone
      ensures r.Ok? || r.error in {NotDerived, NotSaved} ==>
        var key := TruncatedKey(call.extendedPublicKey);
        && key.Some?
        && exists start, i ::
             FollowsStored(start, Files(old(directories), key.value).indexes) && EndsAt(call, start, i, r)
      ensures r.Err? && r.error !in {NotDerived, NotSaved} <==>
        var key := TruncatedKey(call.extendedPublicKey);
        || key.None? || !call.statted
        || (key.value in old(directories) && (!call.listed || old(directories)[key.value].foreign))
    {
      hide Claim, Search, EndsAt, FollowsStored, LastIndex;
      var truncated := TruncatedKey(call.extendedPublicKey);
      if truncated.None? {
        return Err(ShortKey);
      }
      var key := truncated.value;
      var lastIndex: int := -1;
      if !call.statted {
        return Err(DirectoryFailed);
      }
      if key in directories {
        var stored := Read(key, call.listed);
        if stored.Err? {
          return Err(stored.error);
        }
        lastIndex := stored.value;
      }
      var start := StartIndex(lastIndex);
      NothingStored();
      StartFollowsStored(Files(directories, key).indexes);
      if call.isDryRun {
        SearchEnds(call, start, start);
      } else {
        ClaimEnds(call, start, Files(directories, key), start);
      }
      r := TryAddresses(key, call.wallet, call.isDryRun, start, call.faults);
      assert forall k :: k != key ==> (k in directories - {key} <==> k in directories);
      assert forall k :: k != key ==> Files(directories, k) == Files(directories - {key}, k);
      assert forall k :: k != key ==> Files(old(directories), k) == Files(old(directories) - {key}, k);
    }
  }

  lemma NothingStored()
    ensures LastIndex([]) == -1
  {
  }

  lemma NotEnsured(dir: Dir, index: nat, faults: SaveFaults)
    ensures !faults.ensured ==> SaveAfter(dir, index, faults) == dir
  {
  }

  function Address(r: Result<Found, Failure>): Result<string, Failure> {
    match r
    case Ok(found) => Ok(found.address)
    case Err(e) => Err(e)
  }

  // ---- The counter ----

  predicate InRange(indexes: seq<int>) {
    forall f :: f in indexes ==> 0 <= f < HARDENED
  }

  /** Saving a new greatest index moves the counter to it. */
  lemma SavedIndexIsLast(dir: Dir, index: nat, faults: SaveFaults)
    requires InRange(dir.indexes) && LastIndex(dir.indexes) < index < HARDENED && Saves(faults)
    ensures var saved := SaveAfter(dir, index, faults);
            InRange(saved.indexes) && LastIndex(saved.indexes) == index && saved.foreign == dir.foreign
  {
    var saved := SaveAfter(dir, index, faults);
    assert index in saved.indexes;
    assert forall f :: f in saved.indexes ==> f in dir.indexes || f == index;
  }

  /**
   One save moves the counter back exactly when the old index file could be removed and the new one
   could not be written; the next call then looks at indexes that were used before, and hands one out
   if the node takes its address for unused.
   */
  lemma CounterMovesBackExactly(dir: Dir, index: nat, faults: SaveFaults)
    requires InRange(dir.indexes) && LastIndex(dir.indexes) < index < HARDENED
    ensures LastIndex(SaveAfter(dir, index, faults).indexes) < LastIndex(dir.indexes)
       <==> faults.ensured && faults.listed && !faults.written
            && dir.indexes != [] && LastIndex(dir.indexes) !in faults.unremovable
  {
    var last := LastIndex(dir.indexes);
    if Saves(faults) {
      SavedIndexIsLast(dir, index, faults);
    } else if dir.indexes == [] {
      assert SaveAfter(dir, index, faults).indexes == [];
    } else {
      assert dir.indexes[0] in dir.indexes;
      assert last in dir.indexes && last % TWO_TO_THE_32 == last;
      if faults.ensured && faults.listed {
        var kept := Kept(dir.indexes, index, faults);
        assert last in kept <==> last in faults.unremovable;
        assert LastIndex(kept) == last <==> last in kept;
      }
    }
  }

  /** A real call whose saves succeed claims what a dry run finds, and leaves its index as the last one. */
  lemma {:induction false} ClaimIsSearch(dir: Dir, wallet: Wallet, faults: nat -> SaveFaults, index: nat)
    requires wallet.Valid() && InRange(dir.indexes) && LastIndex(dir.indexes) < index
    requires forall i: nat :: Saves(faults(i))
    ensures var claimed := Claim(dir, wallet, faults, index);
            && claimed.1 == Search(wallet, index)
            && InRange(claimed.0.indexes) && claimed.0.foreign == dir.foreign
            && LastIndex(claimed.0.indexes) >= LastIndex(dir.indexes)
            && (claimed.1.Ok? ==> LastIndex(claimed.0.indexes) == claimed.1.value.index >= index)
    decreases HARDENED - index
  {
    hide SaveAfter, LastIndex;
    if wallet.derive(index).Some? {
      SavedIndexIsLast(dir, index, faults(index));
      hide InRange;
      ClaimIsSearch(SaveAfter(dir, index, faults(index)), wallet, faults, index + 1);
    }
  }

  // ---- Runs of calls ----

  predicate Sound(dir: Dir) { !dir.foreign && InRange(dir.indexes) }

  ghost predicate AllSound(dirs: Dirs) { forall key :: Sound(Files(dirs, key)) }

  ghost predicate FilesSucceed(call: Call) {
    call.statted && call.listed && forall i: nat :: Saves(call.faults(i))
  }

  ghost predicate IsRun(run: seq<Dirs>, calls: seq<Call>) {
    && |run| == |calls| + 1
    && (forall i :: 0 <= i < |calls| ==> calls[i].wallet.Valid() && FilesSucceed(calls[i]))
    && forall i :: 0 <= i < |calls| ==> SameFiles(run[i + 1], CallAfter(run[i], calls[i]).0)
  }

  /** What one call does to every counter. */
  lemma CallMovesForward(dirs: Dirs, call: Call, key: string)
    requires call.wallet.Valid() && FilesSucceed(call) && AllSound(dirs)
    ensures var after := CallAfter(dirs, call);
            && Sound(Files(after.0, key))
            && LastIndex(Files(after.0, key).indexes) >= LastIndex(Files(dirs, key).indexes)
            && (after.1.Ok? && TruncatedKey(call.extendedPublicKey) == Some(key) ==>
                  && after.1.value.index > LastIndex(Files(dirs, key).indexes)
                  && (!call.isDryRun ==> LastIndex(Files(after.0, key).indexes) == after.1.value.index))
  {
    hide Claim, Search, LastIndex, TruncatedKey;
    assert Sound(Files(dirs, key));
    var truncated := TruncatedKey(call.extendedPublicKey);
    if truncated.Some? {
      var dir := Files(dirs, truncated.value);
      assert Sound(dir);
      NextIndex(dir);
      ClaimIsSearch(dir, call.wallet, call.faults, LastIndex(dir.indexes) + 1);
    }
  }

  lemma NextIndex(dir: Dir)
    requires Sound(dir)
    ensures StartIndex(LastIndex(dir.indexes)) == LastIndex(dir.indexes) + 1 <= HARDENED
    ensures forall f :: f in dir.indexes ==> f <= LastIndex(dir.indexes)
  {
  }

  lemma {:induction false} RunMovesForward(run: seq<Dirs>, calls: seq<Call>, i: nat, j: nat, key: string)
    requires IsRun(run, calls) && i <= j < |run| && AllSound(run[0])
    ensures AllSound(run[i]) && AllSound(run[j])
    ensures LastIndex(Files(run[i], key).indexes) <= LastIndex(Files(run[j], key).indexes)
    decreases j
  {
    hide CallAfter, Files, Sound, LastIndex;
    if i < j {
      RunMovesForward(run, calls, i, j - 1, key);
      forall k ensures Sound(Files(run[j], k))
        ensures LastIndex(Files(run[j - 1], k).indexes) <= LastIndex(Files(run[j], k).indexes)
      {
        CallMovesForward(run[j - 1], calls[j - 1], k);
      }
    } else if j > 0 {
      RunMovesForward(run, calls, j - 1, j - 1, key);
      forall k ensures Sound(Files(run[j], k)) {
        CallMovesForward(run[j - 1], calls[j - 1], k);
      }
    }
  }

  /**
   With file operations succeeding, the index of a call is greater than that of every earlier real call
   for the same truncated key.
   */
  lemma IndexesIncrease(run: seq<Dirs>, calls: seq<Call>, i: nat, j: nat)
    requires IsRun(run, calls) && i < j < |calls| && AllSound(run[0])
    ensures var (earlier, later) := (CallAfter(run[i], calls[i]).1, CallAfter(run[j], calls[j]).1);
            !calls[i].isDryRun && earlier.Ok? && later.Ok?
            && TruncatedKey(calls[i].extendedPublicKey) == TruncatedKey(calls[j].extendedPublicKey) ==>
              earlier.value.index < later.value.index
  {
    var truncated := TruncatedKey(calls[j].extendedPublicKey);
    RunMovesForward(run, calls, i, j, []);
    if truncated.Some? {
      var key := truncated.value;
      RunMovesForward(run, calls, i + 1, j, key);
      CallMovesForward(run[i], calls[i], key);
      CallMovesForward(run[j], calls[j], key);
    }
  }

  /** Every call, real or dry, finds an index above all those stored for its key. */
  lemma IndexIsAboveTheStored(run: seq<Dirs>, calls: seq<Call>, j: nat)
    requires IsRun(run, calls) && j < |calls| && AllSound(run[0])
    ensures var (key, found) := (TruncatedKey(calls[j].extendedPublicKey), CallAfter(run[j], calls[j]).1);
            found.Ok? ==>
              key.Some? && forall f :: f in Files(run[j], key.value).indexes ==> f < found.value.index
  {
    var truncated := TruncatedKey(calls[j].extendedPublicKey);
    RunMovesForward(run, calls, j, j, []);
    if truncated.Some? {
      CallMovesForward(run[j], calls[j], truncated.value);
    }
  }

  /** A dry run changes nothing and finds what the next real call will hand out. */
  lemma DryRunPredicts(dirs: Dirs, call: Call)
    requires call.wallet.Valid() && FilesSucceed(call) && AllSound(dirs) && !call.isDryRun
    ensures CallAfter(dirs, call.(isDryRun := true)) == (dirs, CallAfter(dirs, call).1)
  {
    hide Claim, Search, LastIndex, TruncatedKey;
    var truncated := TruncatedKey(call.extendedPublicKey);
    if truncated.Some? {
      var dir := Files(dirs, truncated.value);
      assert Sound(dir);
      NextIndex(dir);
      ClaimIsSearch(dir, call.wallet, call.faults, LastIndex(dir.indexes) + 1);
    }
  }

  /** Index 7 was used; writing 8 fails after 7 was removed; the next call hands out index 0 again. */
  lemma FailedWriteReusesIndexes(call: Call, key: string)
    requires call.wallet.Valid() && FilesSucceed(call) && !call.isDryRun
    requires TruncatedKey(call.extendedPublicKey) == Some(key)
    requires call.wallet.derive(0).Some? && call.wallet.unused(call.wallet.derive(0).value)
    requires call.wallet.derive(8).Some?
    ensures var failing := call.(faults := i => SaveFaults(true, true, {}, false));
            var first := CallAfter(map[key := Dir([7], false)], failing);
            && first.1 == Err(NotSaved)
            && CallAfter(first.0, call).1 == Ok(Found(call.wallet.derive(0).value, 0))
  {
    var failing := call.(faults := i => SaveFaults(true, true, {}, false));
    assert LastIndex([7]) == 7 && Kept([7], 8, failing.faults(8)) == [];
    assert CallAfter(map[key := Dir([7], false)], failing).0 == map[key := Dir([], false)];
  }
}
