/** Chunk storage: in memory, and as files under a root directory, both behaving as a map from IDs to bytes. */
module Storage {
  import opened Chunks
  import opened Lists

  class Memory {
    var data: map<ChunkId, Bytes>

    constructor ()
      ensures data == map[]
    {
      data := map[];
    }

    method Put(chunkID: ChunkId, bytes: Bytes)
      modifies this
      ensures data == old(data)[chunkID := bytes]
    {
      data := data[chunkID := bytes];
    }

    method Get(chunkID: ChunkId) returns (found: Option<Bytes>)
      ensures found == if chunkID in data then Some(data[chunkID]) else None
    {
      if chunkID in data {
        return Some(data[chunkID]);
      }
      return None;
    }

    /** The IDs in some order. */
    method List() returns (ids: seq<ChunkId>)
      ensures NoDuplicates(ids) && Elements(ids) == data.Keys
    {
      ids := [];
      var rest := data.Keys;
      while rest != {}
        invariant NoDuplicates(ids) && Elements(ids) == data.Keys - rest && rest <= data.Keys
        decreases rest
      {
        var id :| id in rest;
        assert id !in Elements(ids);
        assert Elements(ids + [id]) == Elements(ids) + {id};
        ids := ids + [id];
        rest := rest - {id};
      }
    }
  }

  // ---------------------------------------------------------------------------------------------
  // Paths
  // ---------------------------------------------------------------------------------------------

  predicate IsHexChar(c: char) {
    '0' <= c <= '9' || 'a' <= c <= 'f'
  }

  /** What `ID` produces: lower-case hexadecimal, not empty. */
  predicate IsHex(id: ChunkId) {
    id != "" && forall c | c in id :: IsHexChar(c)
  }

  /** An ID that names a file of its own below the root; a peer may ask for any of these. */
  predicate Plain(id: ChunkId) {
    id != "" && '/' !in id && id != "." && (|id| >= 2 ==> id[..2] != "..")
  }

  lemma HexIsPlain(id: ChunkId)
    requires IsHex(id)
    ensures Plain(id)
  {
    assert id[0] in id && IsHexChar(id[0]);
    assert "."[0] == '.' && ".."[0] == '.';
    assert |id| >= 2 ==> id[..2][0] == id[0];
    assert forall c | c in id :: c != '/';
  }

  function Shard(id: ChunkId): string {
    if |id| < 2 then "_short" else id[..2]
  }

  function PathOf(root: string, id: ChunkId): string {
    root + "/" + Shard(id) + "/" + id
  }

  const TMP := ".tmp"

  /** The last element of a path. */
  function Base(path: string): string {
    if path == "" || path[|path| - 1] == '/' then "" else Base(path[..|path| - 1]) + [path[|path| - 1]]
  }

  /** The part of the last element of a path from its last dot on. */
  function Ext(path: string): string {
    ExtFrom(path, |path|)
  }

  function ExtFrom(path: string, i: nat): string
    requires i <= |path|
  {
    if i == 0 || path[i - 1] == '/' then "" else if path[i - 1] == '.' then path[i - 1..] else ExtFrom(path, i - 1)
  }

  lemma {:induction false} BaseAfterSlash(dir: string, name: string)
    requires '/' !in name
    ensures Base(dir + "/" + name) == name
  {
    var p := dir + "/" + name;
    if name != "" {
      var init := name[..|name| - 1];
      assert p[..|p| - 1] == dir + "/" + init;
      assert p[|p| - 1] == name[|name| - 1] && name[|name| - 1] in name;
      BaseAfterSlash(dir, init);
    }
  }

  lemma {:induction false} ExtStopsAtSlash(path: string, i: nat, j: nat)
    requires 0 < j <= i <= |path| && path[j - 1] == '/' && forall k | j <= k < i :: path[k] != '.'
    ensures ExtFrom(path, i) == ""
  {
    if j < i {
      ExtStopsAtSlash(path, i - 1, j);
    }
  }

  lemma HexPath(root: string, id: ChunkId)
    requires IsHex(id)
    ensures PathOf(root, id) == root + "/" + (if |id| < 2 then "_short" else id[..2]) + "/" + id
    ensures Base(PathOf(root, id)) == id
    ensures Ext(PathOf(root, id)) == "" && Ext(PathOf(root, id) + TMP) == TMP
  {
    var p := PathOf(root, id);
    assert forall c | c in id :: c != '/' && c != '.';
    BaseAfterSlash(root + "/" + Shard(id), id);
    var j := |root + "/" + Shard(id) + "/"|;
    assert forall k | j <= k < |p| :: p[k] == id[k - j] && id[k - j] in id;
    ExtStopsAtSlash(p, |p|, j);
    ExtOfTmp(p);
  }

  lemma ExtOfTmp(p: string)
    ensures Ext(p + TMP) == TMP
  {
    var t := p + TMP;
    var n := |t|;
    assert t[n - 1] == 'p' && t[n - 2] == 'm' && t[n - 3] == 't' && t[n - 4] == '.';
    assert ExtFrom(t, n) == ExtFrom(t, n - 1) == ExtFrom(t, n - 2) == ExtFrom(t, n - 3) == t[n - 4..];
    assert t[n - 4..] == TMP;
  }

  /** Different IDs never share a file, nor does one ID's file serve as another's temporary file. */
  lemma PathsDistinct(root: string, a: ChunkId, b: ChunkId)
    requires IsHex(a) && IsHex(b)
    ensures PathOf(root, a) == PathOf(root, b) ==> a == b
    ensures PathOf(root, a) != PathOf(root, b) + TMP
  {
    HexPath(root, a);
    HexPath(root, b);
  }

  // ---------------------------------------------------------------------------------------------
  // Files
  // ---------------------------------------------------------------------------------------------

  predicate ChunkFile(root: string, path: string) {
    IsHex(Base(path)) && path == PathOf(root, Base(path))
  }

  predicate TmpFile(root: string, path: string) {
    |path| >= |TMP| && path[|path| - |TMP|..] == TMP && ChunkFile(root, path[..|path| - |TMP|])
  }

  /** A chunk store on a file system that holds nothing else under its root; directories appear as needed. */
  class LocalFS {
    const root: string
    var files: map<string, Bytes>

    ghost predicate Valid()
      reads this
    {
      forall p | p in files :: ChunkFile(root, p) || TmpFile(root, p)
    }

    /** The map the files stand for; leftover temporary files do not show. */
    ghost function Contents(): map<ChunkId, Bytes>
      reads this
    {
      ContentsOf(root, files)
    }

    constructor (root: string)
      ensures Valid() && this.root == root && Contents() == map[]
    {
      this.root, files := root, map[];
    }

    /** Writes the first `written` bytes to the temporary file; what a crash in the middle leaves behind. */
    method WriteTmp(chunkID: ChunkId, data: Bytes, written: nat)
      requires Valid() && IsHex(chunkID) && written <= |data|
      modifies this
      ensures Valid() && Contents() == old(Contents())
      ensures files == old(files)[root + "/" + (if |chunkID| < 2 then "_short" else chunkID[..2]) + "/" + chunkID + ".tmp"
                                  := data[..written]]
    {
      HexPath(root, chunkID);
      TmpHidden(root, files, chunkID, data[..written]);
      var tmp := PathOf(root, chunkID) + TMP;
      assert tmp[..|tmp| - |TMP|] == PathOf(root, chunkID) && tmp[|tmp| - |TMP|..] == TMP;
      files := files[tmp := data[..written]];
    }

    method Put(chunkID: ChunkId, data: Bytes)
      requires Valid() && IsHex(chunkID)
      modifies this
      ensures Valid() && Contents() == old(Contents())[chunkID := data]
    {
      WriteTmp(chunkID, data, |data|);
      Rename(chunkID);
      assert data[..|data|] == data;
    }

    /** The atomic step that makes the new bytes visible. */
    method Rename(chunkID: ChunkId)
      requires Valid() && IsHex(chunkID) && PathOf(root, chunkID) + TMP in files
      modifies this
      ensures Valid()
      ensures Contents() == old(Contents())[chunkID := old(files)[PathOf(root, chunkID) + TMP]]
    {
      var p := PathOf(root, chunkID);
      HexPath(root, chunkID);
      RenameShows(root, files, chunkID);
      files := files[p := files[p + TMP]] - {p + TMP};
    }

    /** Any other name finds nothing, except that the name of a leftover temporary file finds that file. */
    method Get(chunkID: ChunkId) returns (found: Option<Bytes>)
      requires Valid() && Plain(chunkID)
      ensures chunkID in Contents() ==> found == Some(Contents()[chunkID])
      ensures chunkID !in Contents() && found.Some? ==> TmpName(chunkID)
    {
      AnyPath(root, files, chunkID);
      var p := PathOf(root, chunkID);
      if p !in files {
        return None;
      }
      return Some(files[p]);
    }

    method Has(chunkID: ChunkId) returns (has: bool)
      requires Valid() && Plain(chunkID)
      ensures chunkID in Contents() ==> has
      ensures chunkID !in Contents() && has ==> TmpName(chunkID)
    {
      AnyPath(root, files, chunkID);
      has := PathOf(root, chunkID) in files;
    }

    method Delete(chunkID: ChunkId)
      requires Valid() && Plain(chunkID)
      modifies this
      ensures Valid() && Contents() == old(Contents()) - {chunkID}
    {
      DeleteHides(root, files, chunkID);
      files := files - {PathOf(root, chunkID)};
    }

    /** Every stored ID once, in the order of the walk over the tree; temporary files are passed over. */
    method List() returns (ids: seq<ChunkId>)
      requires Valid()
      ensures NoDuplicates(ids) && Elements(ids) == Contents().Keys
    {
      hide Ext, ListedSoFar;
      ids := [];
      var rest := files.Keys;
      ghost var walked: set<string> := {};
      NothingWalked(root);
      while rest != {}
        invariant rest <= files.Keys && walked == files.Keys - rest
        invariant ListedSoFar(root, ids, walked)
        decreases rest
      {
        var path :| path in rest;
        WalkOne(root, path);
        ListedNext(root, ids, walked, path);
        if Ext(path) != TMP {
          ids := ids + [Base(path)];
        }
        walked := walked + {path};
        rest := rest - {path};
      }
      assert walked == files.Keys;
      AllWalked(root, ids, files);
    }
  }

  /** The IDs found in the part of the tree walked so far. */
  ghost predicate ListedSoFar(root: string, ids: seq<ChunkId>, walked: set<string>) {
    NoDuplicates(ids) && forall id :: id in ids <==> IsHex(id) && PathOf(root, id) in walked
  }

  lemma NothingWalked(root: string)
    ensures ListedSoFar(root, [], {})
  {}

  lemma ListedNext(root: string, ids: seq<ChunkId>, walked: set<string>, path: string)
    requires ListedSoFar(root, ids, walked) && path !in walked
    requires forall id | IsHex(id) :: PathOf(root, id) == path <==> ChunkFile(root, path) && id == Base(path)
    ensures ListedSoFar(root, if ChunkFile(root, path) then ids + [Base(path)] else ids, walked + {path})
  {
    if ChunkFile(root, path) {
      assert Base(path) !in ids;
      assert forall id :: id in ids + [Base(path)] <==> id in ids || id == Base(path);
    }
  }

  lemma AllWalked(root: string, ids: seq<ChunkId>, files: map<string, Bytes>)
    requires ListedSoFar(root, ids, files.Keys)
    ensures NoDuplicates(ids) && Elements(ids) == ContentsOf(root, files).Keys
  {
    ContentsHas(root, files);
    forall id ensures id in Elements(ids) <==> id in ContentsOf(root, files) {
      assert id in ids <==> id in Elements(ids);
    }
  }

  /** The IDs whose file exists. */
  ghost function StoredIds(root: string, files: map<string, Bytes>): (ids: set<ChunkId>)
    ensures forall id | id in ids :: IsHex(id) && PathOf(root, id) in files
  {
    set p | p in files && ChunkFile(root, p) :: Base(p)
  }

  ghost function ContentsOf(root: string, files: map<string, Bytes>): map<ChunkId, Bytes> {
    map id | id in StoredIds(root, files) :: files[PathOf(root, id)]
  }

  lemma StoredIff(root: string, files: map<string, Bytes>, id: ChunkId)
    ensures id in StoredIds(root, files) <==> IsHex(id) && PathOf(root, id) in files
  {
    if IsHex(id) {
      HexPath(root, id);
      if PathOf(root, id) in files {
        assert ChunkFile(root, PathOf(root, id));
      }
    }
  }

  /** What one step of the walk sees: a chunk's file, or a temporary file of a chunk. */
  lemma WalkOne(root: string, path: string)
    requires ChunkFile(root, path) || TmpFile(root, path)
    ensures Ext(path) != TMP <==> ChunkFile(root, path)
    ensures forall id | IsHex(id) :: PathOf(root, id) == path <==> ChunkFile(root, path) && id == Base(path)
  {
    if TmpFile(root, path) {
      HexPath(root, Base(path[..|path| - |TMP|]));
      assert path == path[..|path| - |TMP|] + TMP;
    }
    if ChunkFile(root, path) {
      HexPath(root, Base(path));
    }
    forall id | IsHex(id) ensures PathOf(root, id) == path <==> ChunkFile(root, path) && id == Base(path) {
      HexPath(root, id);
    }
  }

  /** The contents, ID by ID. */
  lemma ContentsIs(root: string, files: map<string, Bytes>, m: map<ChunkId, Bytes>)
    requires forall id :: id in m <==> IsHex(id) && PathOf(root, id) in files
    requires forall id | id in m :: m[id] == files[PathOf(root, id)]
    ensures ContentsOf(root, files) == m
  {
    forall id ensures id in StoredIds(root, files) <==> id in m {
      StoredIff(root, files, id);
    }
  }

  lemma ContentsHas(root: string, files: map<string, Bytes>)
    ensures forall id :: id in ContentsOf(root, files) <==> IsHex(id) && PathOf(root, id) in files
  {
    forall id ensures id in ContentsOf(root, files) <==> IsHex(id) && PathOf(root, id) in files {
      StoredIff(root, files, id);
    }
  }

  lemma OtherPaths(root: string, id: ChunkId)
    requires IsHex(id)
    ensures forall other | IsHex(other) ::
              (PathOf(root, other) == PathOf(root, id) ==> other == id) && PathOf(root, other) != PathOf(root, id) + TMP
  {
    forall other | IsHex(other)
      ensures (PathOf(root, other) == PathOf(root, id) ==> other == id) && PathOf(root, other) != PathOf(root, id) + TMP
    {
      PathsDistinct(root, other, id);
    }
  }

  lemma TmpHidden(root: string, files: map<string, Bytes>, id: ChunkId, bytes: Bytes)
    requires IsHex(id)
    ensures ContentsOf(root, files[PathOf(root, id) + TMP := bytes]) == ContentsOf(root, files)
  {
    ContentsHas(root, files);
    OtherPaths(root, id);
    ContentsIs(root, files[PathOf(root, id) + TMP := bytes], ContentsOf(root, files));
  }

  lemma RenameShows(root: string, files: map<string, Bytes>, id: ChunkId)
    requires IsHex(id) && PathOf(root, id) + TMP in files
    ensures var p := PathOf(root, id);
            ContentsOf(root, files[p := files[p + TMP]] - {p + TMP}) == ContentsOf(root, files)[id := files[p + TMP]]
  {
    var p := PathOf(root, id);
    ContentsHas(root, files);
    OtherPaths(root, id);
    ContentsIs(root, files[p := files[p + TMP]] - {p + TMP}, ContentsOf(root, files)[id := files[p + TMP]]);
  }

  /** The base name of a path is the ID it was made of, so no two names share a file. */
  lemma PlainPath(root: string, id: ChunkId)
    requires '/' !in id
    ensures Base(PathOf(root, id)) == id
  {
    BaseAfterSlash(root + "/" + Shard(id), id);
  }

  /** The name of a chunk's temporary file. */
  ghost predicate TmpName(name: string) {
    |name| > |TMP| && name[|name| - |TMP|..] == TMP && IsHex(name[..|name| - |TMP|])
  }

  lemma TmpFileName(root: string, path: string)
    requires TmpFile(root, path)
    ensures TmpName(Base(path))
  {
    var front := path[..|path| - |TMP|];
    var id := Base(front);
    assert path == front + TMP == root + "/" + Shard(id) + "/" + (id + TMP);
    assert forall c | c in id + TMP :: c in id || c in TMP;
    BaseAfterSlash(root + "/" + Shard(id), id + TMP);
    assert (id + TMP)[..|id|] == id && (id + TMP)[|id|..] == TMP;
  }

  /** What the file of a name may be: the chunk of that ID, or a leftover. */
  lemma AnyPath(root: string, files: map<string, Bytes>, id: ChunkId)
    requires (forall p | p in files :: ChunkFile(root, p) || TmpFile(root, p)) && Plain(id)
    ensures id in ContentsOf(root, files) ==>
              PathOf(root, id) in files && files[PathOf(root, id)] == ContentsOf(root, files)[id]
    ensures PathOf(root, id) in files && id !in ContentsOf(root, files) ==> TmpName(id)
  {
    StoredIff(root, files, id);
    PlainPath(root, id);
    var p := PathOf(root, id);
    if p in files && id !in ContentsOf(root, files) {
      assert !IsHex(Base(p));
      TmpFileName(root, p);
    }
  }

  lemma DeleteHides(root: string, files: map<string, Bytes>, id: ChunkId)
    requires '/' !in id
    ensures ContentsOf(root, files - {PathOf(root, id)}) == ContentsOf(root, files) - {id}
  {
    ContentsHas(root, files);
    PlainPath(root, id);
    forall other | IsHex(other) ensures PathOf(root, other) == PathOf(root, id) ==> other == id {
      HexPath(root, other);
    }
    ContentsIs(root, files - {PathOf(root, id)}, ContentsOf(root, files) - {id});
  }

  /** `now` is `before`, overwritten on the IDs done so far. */
  ghost predicate Overwritten(now: map<ChunkId, Bytes>, before: map<ChunkId, Bytes>, from: map<ChunkId, Bytes>,
                              done: seq<ChunkId>)
  {
    && (forall id | id in done :: id in from)
    && (forall id :: id in now <==> id in before || id in done)
    && (forall id | id in now :: now[id] == if id in done then from[id] else before[id])
  }

  /** Either kind of store. */
  datatype Backend = Files(fs: LocalFS) | InMemory(memory: Memory) {

    function Object(): object {
      if Files? then fs else memory
    }

    ghost predicate Valid()
      reads Object()
    {
      Files? ==> fs.Valid()
    }

    ghost function Contents(): map<ChunkId, Bytes>
      reads Object()
    {
      if Files? then fs.Contents() else memory.data
    }

    /** May the store be given this ID? */
    predicate Accepts(id: ChunkId) {
      Files? ==> IsHex(id)
    }

    method Get(id: ChunkId) returns (found: Option<Bytes>)
      requires Valid() && id in Contents()
      ensures found == Some(Contents()[id])
    {
      match this
      case Files(f) =>
        StoredIff(f.root, f.files, id);
        HexIsPlain(id);
        found := f.Get(id);
      case InMemory(m) =>
        found := m.Get(id);
    }

    method Put(id: ChunkId, bytes: Bytes)
      requires Valid() && Accepts(id)
      modifies Object()
      ensures Valid() && Contents() == old(Contents())[id := bytes]
    {
      match this
      case Files(f) => f.Put(id, bytes);
      case InMemory(m) => m.Put(id, bytes);
    }

    method List() returns (ids: seq<ChunkId>)
      requires Valid()
      ensures NoDuplicates(ids) && Elements(ids) == Contents().Keys
    {
      match this
      case Files(f) => ids := f.List();
      case InMemory(m) => ids := m.List();
    }
  }

  /** Copying a store into another of either kind, or into itself. */
  method Copy(dst: Backend, src: Backend)
    requires dst.Valid() && src.Valid() && forall id | id in src.Contents() :: dst.Accepts(id)
    modifies dst.Object()
    ensures dst.Valid() && dst.Contents() == old(dst.Contents()) + old(src.Contents())
  {
    hide Overwritten, Backend.Accepts, NoDuplicates, Elements, ContentsOf;
    ghost var from, before := src.Contents(), dst.Contents();
    assert forall id | id in from :: dst.Accepts(id);
    var ids := src.List();
    NothingOverwritten(before, from);
    AllListed(ids);
    var i := 0;
    while i < |ids|
      invariant 0 <= i <= |ids| && dst.Valid() && src.Valid()
      invariant src.Contents() == from
      invariant Overwritten(dst.Contents(), before, from, ids[..i])
    {
      PrefixNext(ids, i);
      OverwriteNext(dst.Contents(), before, from, ids[..i], ids[i]);
      CopyOne(dst, src, ids[i]);
      i := i + 1;
    }
    PrefixAll(ids);
    OverwrittenAll(dst.Contents(), before, from, ids);
  }

  method CopyOne(dst: Backend, src: Backend, id: ChunkId)
    requires dst.Valid() && src.Valid() && id in src.Contents() && dst.Accepts(id)
    modifies dst.Object()
    ensures dst.Valid() && src.Valid() && src.Contents() == old(src.Contents())
    ensures dst.Contents() == old(dst.Contents())[id := old(src.Contents())[id]]
  {
    hide ContentsOf, ChunkFile, TmpFile;
    var bytes := src.Get(id);
    dst.Put(id, bytes.value);
  }

  lemma AllListed(ids: seq<ChunkId>)
    ensures forall k | 0 <= k < |ids| :: ids[k] in Elements(ids)
  {}

  lemma NothingOverwritten(before: map<ChunkId, Bytes>, from: map<ChunkId, Bytes>)
    ensures Overwritten(before, before, from, [])
  {}

  lemma OverwriteNext(now: map<ChunkId, Bytes>, before: map<ChunkId, Bytes>, from: map<ChunkId, Bytes>,
                      done: seq<ChunkId>, id: ChunkId)
    requires Overwritten(now, before, from, done) && id in from
    ensures Overwritten(now[id := from[id]], before, from, done + [id])
  {
    assert forall x :: x in done + [id] <==> x in done || x == id;
  }

  lemma OverwrittenAll(now: map<ChunkId, Bytes>, before: map<ChunkId, Bytes>, from: map<ChunkId, Bytes>,
                       done: seq<ChunkId>)
    requires Overwritten(now, before, from, done) && Elements(done) == from.Keys
    ensures now == before + from
  {
    assert forall x :: x in done <==> x in Elements(done);
  }
}
