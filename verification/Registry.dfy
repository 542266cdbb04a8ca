/**
 The registry of signers: a map in memory beside one directory per keep on disk. The functions give
 what one call does to both, for every outcome of the file operations; the class changes them in place.
 */
module Registry {
  import opened Wrappers

  type KeepID = nat
  type Content = string
  type Disk = map<string, map<string, Content>>

  datatype Signer = Signer(memberID: string, keyShare: nat)

  /** The string forms of keep IDs and signers; None when a value cannot be converted. */
  datatype Codec = Codec(
    name: KeepID -> string,
    unmarshalID: string -> Option<KeepID>,
    marshal: Signer -> Option<Content>,
    unmarshal: Content -> Option<Signer>)
  {
    /** What is written can be read back. */
    ghost predicate Faithful() {
      && (forall k: KeepID :: unmarshalID(name(k)) == Some(k))
      && (forall s :: marshal(s).Some? ==> unmarshal(marshal(s).value) == Some(s))
    }
  }

  datatype Store = Store(memory: map<KeepID, Signer>, disk: Disk)

  /** A failed save may leave anything in the file it was writing, or nothing. */
  datatype SaveResult = Saved | SaveFailed(leftover: Option<Content>)

  /** A failed archive may leave any part of the directory, or all of it. */
  datatype ArchiveResult = Archived | ArchiveFailed(left: set<string>)

  datatype RegisterError = AlreadyRegistered | NotMarshalled | NotSaved

  function FileName(s: Signer): string {
    "/membership_" + (if |s.memberID| <= 40 then s.memberID else s.memberID[..40])
  }

  function ContentOf(disk: Disk, dir: string, file: string): Option<Content> {
    if dir in disk && file in disk[dir] then Some(disk[dir][file]) else None
  }

  /** Members share a file in a keep's directory exactly when the first forty characters of their IDs agree. */
  lemma SharedFileExactly(s: Signer, t: Signer)
    requires |s.memberID| >= 40 && |t.memberID| >= 40
    ensures FileName(s) == FileName(t) <==> s.memberID[..40] == t.memberID[..40]
  {
    assert |"/membership_"| == 12;
    assert FileName(s)[12..] == s.memberID[..40] && FileName(t)[12..] == t.memberID[..40];
  }

  function WithFile(disk: Disk, dir: string, file: string, content: Content): Disk {
    disk[dir := (if dir in disk then disk[dir] else map[])[file := content]]
  }

  function SaveAfter(disk: Disk, dir: string, file: string, content: Content, save: SaveResult): Disk {
    match save
    case Saved => WithFile(disk, dir, file, content)
    case SaveFailed(None) => disk
    case SaveFailed(Some(leftover)) => WithFile(disk, dir, file, leftover)
  }

  function ArchiveAfter(disk: Disk, dir: string, archive: ArchiveResult): Disk {
    match archive
    case Archived => disk - {dir}
    case ArchiveFailed(left) =>
      if dir in disk then disk[dir := map f | f in disk[dir] && f in left :: disk[dir][f]] else disk
  }

  predicate Registers(c: Codec, st: Store, k: KeepID, s: Signer, save: SaveResult) {
    k !in st.memory && c.marshal(s).Some? && save.Saved?
  }

  function RegisterAfter(c: Codec, st: Store, k: KeepID, s: Signer, save: SaveResult): Store {
    if k in st.memory || c.marshal(s).None? then st
    else
      Store(if save.Saved? then st.memory[k := s] else st.memory,
            SaveAfter(st.disk, c.name(k), FileName(s), c.marshal(s).value, save))
  }

  /** The keep leaves the memory whether or not its directory could be archived. */
  function UnregisterAfter(c: Codec, st: Store, k: KeepID, archive: ArchiveResult): Store {
    Store(st.memory - {k}, ArchiveAfter(st.disk, c.name(k), archive))
  }

  // ---- Loading ----

  /** One file of the storage; None when its content cannot be read. */
  datatype Descriptor = Descriptor(dir: string, file: string, content: Option<Content>)

  datatype KeepSigner = KeepSigner(keepID: KeepID, signer: Signer)

  datatype LoadError = Unreadable(d: Descriptor) | NotAKeepID(d: Descriptor) | NotASigner(d: Descriptor)

  function Decode(c: Codec, d: Descriptor): Result<KeepSigner, LoadError> {
    if d.content.None? then Err(Unreadable(d))
    else if c.unmarshalID(d.dir).None? then Err(NotAKeepID(d))
    else if c.unmarshal(d.content.value).None? then Err(NotASigner(d))
    else Ok(KeepSigner(c.unmarshalID(d.dir).value, c.unmarshal(d.content.value).value))
  }

  function LoadOne(memory: map<KeepID, Signer>, ks: KeepSigner): map<KeepID, Signer> {
    if ks.keepID in memory then memory else memory[ks.keepID := ks.signer]
  }

  function LoadAll(memory: map<KeepID, Signer>, signers: seq<KeepSigner>): map<KeepID, Signer>
    decreases signers
  {
    if signers == [] then memory else LoadAll(LoadOne(memory, signers[0]), signers[1..])
  }

  function Lookup(memory: map<KeepID, Signer>, k: KeepID): Option<Signer> {
    if k in memory then Some(memory[k]) else None
  }

  /** The first signer delivered for a keep. */
  function FirstSigner(signers: seq<KeepSigner>, k: KeepID): Option<Signer> {
    if signers == [] then None
    else if signers[0].keepID == k then Some(signers[0].signer)
    else FirstSigner(signers[1..], k)
  }

  function Signers(c: Codec, ds: seq<Descriptor>): seq<KeepSigner> {
    if ds == [] then []
    else
      var decoded := Decode(c, ds[0]);
      (if decoded.Ok? then [decoded.value] else []) + Signers(c, ds[1..])
  }

  function Errors(c: Codec, ds: seq<Descriptor>): seq<LoadError> {
    if ds == [] then []
    else
      var decoded := Decode(c, ds[0]);
      (if decoded.Err? then [decoded.error] else []) + Errors(c, ds[1..])
  }

  /** Every file gives its own result, and the results keep the order of the files. */
  lemma {:induction false} FileGivesItsResult(c: Codec, ds: seq<Descriptor>, i: nat)
    requires i < |ds|
    ensures var (n, d) := (|Signers(c, ds[..i])|, ds[i]);
            && n <= i && i - n == |Errors(c, ds[..i])|
            && match (d.content, c.unmarshalID(d.dir))
               case (None, _) => HasAt(Errors(c, ds), i - n, Unreadable(d))
               case (Some(_), None) => HasAt(Errors(c, ds), i - n, NotAKeepID(d))
               case (Some(content), Some(id)) =>
                 if c.unmarshal(content).Some?
                 then HasAt(Signers(c, ds), n, KeepSigner(id, c.unmarshal(content).value))
                 else HasAt(Errors(c, ds), i - n, NotASigner(d))
    decreases ds
  {
    if i > 0 {
      assert ds[..i][1..] == ds[1..][..i - 1];
      FileGivesItsResult(c, ds[1..], i - 1);
    }
  }

  predicate HasAt<T(==)>(s: seq<T>, i: int, x: T) { 0 <= i < |s| && s[i] == x }

  class Keeps {
    const codec: Codec
    var myKeeps: map<KeepID, Signer>
    var disk: Disk

    function View(): Store
      reads this
    {
      Store(myKeeps, disk)
    }

    constructor (codec: Codec, disk: Disk)
      ensures this.codec == codec && View() == Store(map[], disk)
    {
      this.codec := codec;
      this.disk := disk;
      myKeeps := map[];
    }

    method RegisterSigner(k: KeepID, s: Signer, save: SaveResult) returns (error: Option<RegisterError>)
      modifies this
      ensures View() == RegisterAfter(codec, old(View()), k, s, save)
      ensures error.None? <==> Registers(codec, old(View()), k, s, save)
      ensures error == Some(AlreadyRegistered) <==> k in old(myKeeps)
      ensures error == Some(NotMarshalled) <==> k !in old(myKeeps) && codec.marshal(s).None?
      // a success puts the signer in memory and in its file; no error changes the memory
      ensures myKeeps == if error.None? then old(myKeeps)[k := s] else old(myKeeps)
      ensures error.None? ==> Saves(codec, disk, k, s)
      ensures error in {Some(AlreadyRegistered), Some(NotMarshalled)} ==> disk == old(disk)
      // no other file is touched
      ensures forall dir, file :: (dir, file) != (codec.name(k), FileName(s)) ==>
                ContentOf(disk, dir, file) == ContentOf(old(disk), dir, file)
    {
      if k in myKeeps {
        return Some(AlreadyRegistered);
      }
      var signerBytes := codec.marshal(s);
      if signerBytes.None? {
        return Some(NotMarshalled);
      }
      disk := SaveAfter(disk, codec.name(k), FileName(s), signerBytes.value, save);
      if save.SaveFailed? {
        return Some(NotSaved);
      }
      myKeeps := myKeeps[k := s];
      return None;
    }

    method UnregisterKeep(k: KeepID, archive: ArchiveResult)
      modifies this
      ensures View() == UnregisterAfter(codec, old(View()), k, archive)
      ensures myKeeps == old(myKeeps) - {k}
      ensures archive.Archived? ==> codec.name(k) !in disk
      ensures forall dir, file :: dir != codec.name(k) ==> ContentOf(disk, dir, file) == ContentOf(old(disk), dir, file)
    {
      disk := ArchiveAfter(disk, codec.name(k), archive);
      myKeeps := myKeeps - {k};
    }

    method GetSigner(k: KeepID) returns (r: Option<Signer>)
      ensures r.Some? <==> k in myKeeps
      ensures r.Some? ==> r.value == myKeeps[k]
    {
      if k in myKeeps {
        return Some(myKeeps[k]);
      }
      return None;
    }

    predicate HasSigner(k: KeepID)
      reads this
    {
      k in myKeeps
    }

    /** The loading loop, with the signers in the order the channel delivers them. */
    method LoadExistingKeeps(signers: seq<KeepSigner>)
      modifies this
      ensures myKeeps == LoadAll(old(myKeeps), signers) && disk == old(disk)
    {
      var i := 0;
      while i < |signers|
        invariant 0 <= i <= |signers|
        invariant LoadAll(myKeeps, signers[i..]) == LoadAll(old(myKeeps), signers) && disk == old(disk)
      {
        if signers[i].keepID !in myKeeps {
          myKeeps := myKeeps[signers[i].keepID := signers[i].signer];
        }
        i := i + 1;
      }
    }
  }

  // ---- What the calls keep ----

  /** Every signer in memory is saved. */
  ghost predicate MemoryOnDisk(c: Codec, st: Store) {
    forall k :: k in st.memory ==> Saves(c, st.disk, k, st.memory[k])
  }

  predicate Saves(c: Codec, disk: Disk, k: KeepID, s: Signer) {
    && c.marshal(s).Some? && c.name(k) in disk && FileName(s) in disk[c.name(k)]
    && disk[c.name(k)][FileName(s)] == c.marshal(s).value
  }

  /** The saved data is the memory: one directory per keep, one file in it. */
  ghost predicate DiskIsMemory(c: Codec, st: Store) {
    && (forall k :: k in st.memory ==> SavesOnly(c, st.disk, k, st.memory[k]))
    && (forall dir :: dir in st.disk ==> Named(c, st.memory, dir))
  }

  predicate SavesOnly(c: Codec, disk: Disk, k: KeepID, s: Signer) {
    c.marshal(s).Some? && c.name(k) in disk && disk[c.name(k)] == map[FileName(s) := c.marshal(s).value]
  }

  ghost predicate Named(c: Codec, memory: map<KeepID, Signer>, dir: string) {
    exists k :: k in memory && dir == c.name(k)
  }

  lemma NamesDiffer(c: Codec, k: KeepID, l: KeepID)
    requires c.Faithful() && k != l
    ensures c.name(k) != c.name(l)
  {
    assert c.unmarshalID(c.name(k)) == Some(k) && c.unmarshalID(c.name(l)) == Some(l);
  }

  lemma CallsKeepMemoryOnDisk(c: Codec, st: Store, k: KeepID, s: Signer, save: SaveResult, archive: ArchiveResult)
    requires c.Faithful() && MemoryOnDisk(c, st)
    ensures MemoryOnDisk(c, RegisterAfter(c, st, k, s, save))
    ensures MemoryOnDisk(c, UnregisterAfter(c, st, k, archive))
  {
    forall l | l in st.memory && l != k
      ensures Saves(c, RegisterAfter(c, st, k, s, save).disk, l, st.memory[l])
      ensures Saves(c, UnregisterAfter(c, st, k, archive).disk, l, st.memory[l])
    {
      NamesDiffer(c, k, l);
      assert Saves(c, st.disk, l, st.memory[l]);
    }
  }

  lemma RegisterKeepsDiskIsMemory(c: Codec, st: Store, k: KeepID, s: Signer)
    requires c.Faithful() && DiskIsMemory(c, st)
    ensures DiskIsMemory(c, RegisterAfter(c, st, k, s, Saved))
  {
    var st' := RegisterAfter(c, st, k, s, Saved);
    if k !in st.memory && c.marshal(s).Some? {
      forall l | l in st.memory ensures c.name(l) != c.name(k) {
        NamesDiffer(c, k, l);
      }
      assert !Named(c, st.memory, c.name(k));
      forall l | l in st'.memory ensures SavesOnly(c, st'.disk, l, st'.memory[l]) {
        if l != k {
          NamesDiffer(c, k, l);
          assert SavesOnly(c, st.disk, l, st.memory[l]);
        }
      }
      forall dir | dir in st'.disk ensures Named(c, st'.memory, dir) {
        if dir == c.name(k) {
          assert k in st'.memory;
        } else {
          assert Named(c, st.memory, dir);
          var l :| l in st.memory && dir == c.name(l);
          assert l in st'.memory;
        }
      }
    }
  }

  lemma UnregisterKeepsDiskIsMemory(c: Codec, st: Store, k: KeepID)
    requires c.Faithful() && DiskIsMemory(c, st)
    ensures DiskIsMemory(c, UnregisterAfter(c, st, k, Archived))
  {
    var st' := UnregisterAfter(c, st, k, Archived);
    forall l | l in st'.memory ensures SavesOnly(c, st'.disk, l, st'.memory[l]) {
      NamesDiffer(c, k, l);
      assert SavesOnly(c, st.disk, l, st.memory[l]);
    }
    forall dir | dir in st'.disk ensures Named(c, st'.memory, dir) {
      assert Named(c, st.memory, dir);
      var l :| l in st.memory && dir == c.name(l);
      assert l in st'.memory;
    }
  }

  // ---- A fresh load gives back the memory ----

  predicate IsFileOf(d: Descriptor, disk: Disk) {
    d.dir in disk && d.file in disk[d.dir] && d.content == Some(disk[d.dir][d.file])
  }

  ghost predicate Listed(ds: seq<Descriptor>, dir: string, file: string) {
    exists i :: 0 <= i < |ds| && ds[i].dir == dir && ds[i].file == file
  }

  /** The descriptors read back are the files of the disk, in any order and any number of times. */
  ghost predicate Enumerates(ds: seq<Descriptor>, disk: Disk) {
    && (forall i :: 0 <= i < |ds| ==> IsFileOf(ds[i], disk))
    && (forall dir, file :: dir in disk && file in disk[dir] ==> Listed(ds, dir, file))
  }

  /** Loading keeps what is there, and adds the first signer delivered for every other keep. */
  lemma {:induction false} LoadKeepsTheFirst(memory: map<KeepID, Signer>, signers: seq<KeepSigner>, k: KeepID)
    ensures Lookup(LoadAll(memory, signers), k)
         == if k in memory then Some(memory[k]) else FirstSigner(signers, k)
    decreases signers
  {
    if signers != [] {
      LoadKeepsTheFirst(LoadOne(memory, signers[0]), signers[1..], k);
    }
  }

  ghost predicate Delivered(c: Codec, ds: seq<Descriptor>, ks: KeepSigner) {
    exists j :: 0 <= j < |ds| && Decode(c, ds[j]) == Ok(ks)
  }

  lemma {:induction false} FirstSignerOf(c: Codec, ds: seq<Descriptor>, k: KeepID)
    ensures var first := FirstSigner(Signers(c, ds), k);
            && (first.Some? ==> Delivered(c, ds, KeepSigner(k, first.value)))
            && (first.None? ==> forall s :: !Delivered(c, ds, KeepSigner(k, s)))
  {
    if ds != [] {
      FirstSignerOf(c, ds[1..], k);
      var rest := FirstSigner(Signers(c, ds[1..]), k);
      var decoded := Decode(c, ds[0]);
      if decoded.Ok? && decoded.value.keepID == k {
        assert Signers(c, ds) == [decoded.value] + Signers(c, ds[1..]);
        assert ds[0] in ds;
      } else {
        if decoded.Ok? {
          assert Signers(c, ds) == [decoded.value] + Signers(c, ds[1..]);
          assert Signers(c, ds)[1..] == Signers(c, ds[1..]);
        } else {
          assert Signers(c, ds) == Signers(c, ds[1..]);
        }
        assert FirstSigner(Signers(c, ds), k) == rest;
        if rest.Some? {
          var j :| 0 <= j < |ds[1..]| && Decode(c, ds[1..][j]) == Ok(KeepSigner(k, rest.value));
          assert ds[j + 1] == ds[1..][j];
        } else {
          forall s ensures !Delivered(c, ds, KeepSigner(k, s)) {
            assert !Delivered(c, ds[1..], KeepSigner(k, s));
            forall j | 0 <= j < |ds| ensures Decode(c, ds[j]) != Ok(KeepSigner(k, s)) {
              if j > 0 {
                assert ds[j] == ds[1..][j - 1];
              }
            }
          }
        }
      }
    }
  }

  /** With the disk equal to the memory, loading it into an empty registry gives back the same map. */
  lemma FreshLoadIsMemory(c: Codec, st: Store, ds: seq<Descriptor>)
    requires c.Faithful() && DiskIsMemory(c, st) && Enumerates(ds, st.disk)
    ensures LoadAll(map[], Signers(c, ds)) == st.memory
  {
    var loaded := LoadAll(map[], Signers(c, ds));
    forall k ensures Lookup(loaded, k) == Lookup(st.memory, k) {
      LoadKeepsTheFirst(map[], Signers(c, ds), k);
      FirstSignerOf(c, ds, k);
      DescriptorsOfMemory(c, st, ds);
      if k in st.memory {
        assert SavesOnly(c, st.disk, k, st.memory[k]);
        assert Listed(ds, c.name(k), FileName(st.memory[k]));
        var j :| 0 <= j < |ds| && ds[j].dir == c.name(k) && ds[j].file == FileName(st.memory[k]);
        assert IsFileOf(ds[j], st.disk);
        assert Decode(c, ds[j]) == Ok(KeepSigner(k, st.memory[k]));
        assert Delivered(c, ds, KeepSigner(k, st.memory[k]));
      }
    }
    SameLookups(loaded, st.memory);
  }

  lemma SameLookups(m: map<KeepID, Signer>, n: map<KeepID, Signer>)
    requires forall k :: Lookup(m, k) == Lookup(n, k)
    ensures m == n
  {
    forall k ensures (k in m <==> k in n) && (k in m ==> m[k] == n[k]) {
      assert Lookup(m, k) == Lookup(n, k);
    }
  }

  lemma DescriptorsOfMemory(c: Codec, st: Store, ds: seq<Descriptor>)
    requires c.Faithful() && DiskIsMemory(c, st) && Enumerates(ds, st.disk)
    ensures forall j :: 0 <= j < |ds| && Decode(c, ds[j]).Ok? ==>
              Lookup(st.memory, Decode(c, ds[j]).value.keepID) == Some(Decode(c, ds[j]).value.signer)
  {
    forall j | 0 <= j < |ds| && Decode(c, ds[j]).Ok?
      ensures Lookup(st.memory, Decode(c, ds[j]).value.keepID) == Some(Decode(c, ds[j]).value.signer)
    {
      assert IsFileOf(ds[j], st.disk);
      assert Named(c, st.memory, ds[j].dir);
      var l :| l in st.memory && ds[j].dir == c.name(l);
      assert SavesOnly(c, st.disk, l, st.memory[l]);
    }
  }

  /** Every directory is named after a keep, and one operator writes one file name. */
  ghost predicate OneOperator(c: Codec, disk: Disk, file: string) {
    forall dir :: dir in disk ==> (exists k: KeepID :: dir == c.name(k)) && disk[dir].Keys <= {file}
  }

  /**
   Even when saves and archives have failed, loading the disk of one operator gives back every
   registered signer; it may bring back more keeps, never another signer.
   */
  lemma FreshLoadContainsMemory(c: Codec, st: Store, ds: seq<Descriptor>, file: string)
    requires c.Faithful() && MemoryOnDisk(c, st) && Enumerates(ds, st.disk) && OneOperator(c, st.disk, file)
    ensures forall k :: k in st.memory ==> Lookup(LoadAll(map[], Signers(c, ds)), k) == Some(st.memory[k])
  {
    hide LoadAll, FirstSigner, Signers;
    forall k | k in st.memory ensures Lookup(LoadAll(map[], Signers(c, ds)), k) == Some(st.memory[k]) {
      var s := st.memory[k];
      LoadKeepsTheFirst(map[], Signers(c, ds), k);
      FirstSignerOf(c, ds, k);
      assert Saves(c, st.disk, k, s) && file == FileName(s);
      forall j | 0 <= j < |ds| && Decode(c, ds[j]).Ok? && Decode(c, ds[j]).value.keepID == k
        ensures Decode(c, ds[j]).value.signer == s
      {
        assert IsFileOf(ds[j], st.disk);
        var l: KeepID :| ds[j].dir == c.name(l);
        assert c.unmarshalID(c.name(l)) == Some(l);
      }
      assert Listed(ds, c.name(k), file);
      var j :| 0 <= j < |ds| && ds[j].dir == c.name(k) && ds[j].file == file;
      assert IsFileOf(ds[j], st.disk);
      assert Decode(c, ds[j]) == Ok(KeepSigner(k, s));
      assert Delivered(c, ds, KeepSigner(k, s));
    }
  }

  /** An operator's own calls keep the disk its own. */
  lemma CallsKeepOneOperator(
    c: Codec, st: Store, k: KeepID, s: Signer, save: SaveResult, archive: ArchiveResult, file: string)
    requires OneOperator(c, st.disk, file) && FileName(s) == file
    ensures OneOperator(c, RegisterAfter(c, st, k, s, save).disk, file)
    ensures OneOperator(c, UnregisterAfter(c, st, k, archive).disk, file)
  {
  }
}
