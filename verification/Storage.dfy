/** Local-disk storage under one root, and the records Redis keeps of uploads for a limited time. */
module Storage {
  import opened Wrappers
  import opened Paths

  /** A regular file. Times are in milliseconds. */
  datatype Node = Node(size: nat, mtime: real)

  /** The regular files of the disk by absolute path, inside and outside the root. */
  type Files = map<string, Node>

  datatype StoredFile = StoredFile(key: string, size: nat)

  datatype StorageError = EscapesRoot | IoFailed | NoSuchFile

  type Outcome = Result<StoredFile, StorageError>

  /** How the move of `adopt` turns out; the copy made across devices may itself fail part of the way. */
  datatype Rename = Renamed | CrossDevice | CopyFails(written: nat) | RenameFails

  /** Only two different paths can be on two devices. */
  predicate Possible(rename: Rename, root: string, key: string, localPath: string) {
    rename.CrossDevice? || rename.CopyFails? ==> PathFor(root, key) != Some(localPath)
  }

  /** `save` and `saveFrom`: a pipeline that fails leaves what had been written. */
  function AfterWrite(files: Files, root: string, key: string, written: nat, completes: bool, now: real): (Files, Outcome) {
    match PathFor(root, key)
    case None => (files, Err(EscapesRoot))
    case Some(target) =>
      (files[target := Node(written, now)], if completes then Ok(StoredFile(key, written)) else Err(IoFailed))
  }

  /** A rename keeps the file's modification time; the copy made across devices gets a new one. */
  function AfterAdopt(files: Files, root: string, key: string, localPath: string, rename: Rename, now: real): (Files, Outcome) {
    match PathFor(root, key)
    case None => (files, Err(EscapesRoot))
    case Some(target) =>
      if localPath !in files then (files, Err(NoSuchFile))
      else if rename.RenameFails? then (files, Err(IoFailed))
      else if rename.CopyFails? then (files[target := Node(rename.written, now)], Err(IoFailed))
      else
        var n := files[localPath];
        ((files - {localPath})[target := if rename.Renamed? then n else n.(mtime := now)], Ok(StoredFile(key, n.size)))
  }

  function AfterDelete(files: Files, root: string, key: string): (Files, Option<StorageError>) {
    match PathFor(root, key)
    case None => (files, Some(EscapesRoot))
    case Some(target) => (files - {target}, None)
  }

  /** A key outside the root is an error, not an absence. */
  function Existence(files: Files, root: string, key: string): Result<bool, StorageError> {
    match PathFor(root, key)
    case None => Err(EscapesRoot)
    case Some(target) => Ok(target in files)
  }

  /** A save answers with the size written exactly if the key is accepted and the pipeline completes, and only its target changes. */
  lemma SaveAnswers(files: Files, root: string, key: string, written: nat, completes: bool, now: real)
    ensures var (after, r) := AfterWrite(files, root, key, written, completes, now);
            && (r.Ok? <==> PathFor(root, key).Some? && completes)
            && (r.Ok? ==> r.value == StoredFile(key, written))
            && (r == Err(EscapesRoot) <==> PathFor(root, key).None?)
            && (r == Err(EscapesRoot) ==> after == files)
            && (PathFor(root, key).Some? ==>
                  var target := PathFor(root, key).value;
                  && target in after && after[target] == Node(written, now)
                  && forall path :: path != target ==>
                       (path in after <==> path in files) && (path in after ==> after[path] == files[path]))
  {
  }

  /** An adoption changes one file, to one of this instant or as old as the staged one. */
  lemma AdoptChanges(files: Files, root: string, key: string, localPath: string, rename: Rename, now: real, path: string)
    ensures var after := AfterAdopt(files, root, key, localPath, rename, now).0;
            path in after ==>
              || (path in files && after[path] == files[path])
              || after[path].mtime == now
              || (localPath in files && after[path].mtime == files[localPath].mtime)
  {
  }

  class LocalStorage {
    const root: string
    var files: Files

    constructor (root: Segments, files: Files)
      ensures this.root == Absolute(root) && this.files == files
    {
      this.root := Absolute(root);
      this.files := files;
    }

    method Save(key: string, written: nat, completes: bool, now: real) returns (r: Outcome)
      modifies this
      ensures (files, r) == AfterWrite(old(files), root, key, written, completes, now)
    {
      var target := PathFor(root, key);
      if target.None? {
        return Err(EscapesRoot);
      }
      files := files[target.value := Node(written, now)];
      if !completes {
        return Err(IoFailed);
      }
      return Ok(StoredFile(key, files[target.value].size));
    }

    method Adopt(key: string, localPath: string, rename: Rename, now: real) returns (r: Outcome)
      requires Possible(rename, root, key, localPath)
      modifies this
      ensures (files, r) == AfterAdopt(old(files), root, key, localPath, rename, now)
    {
      var target := PathFor(root, key);
      if target.None? {
        return Err(EscapesRoot);
      }
      if localPath !in files {
        return Err(NoSuchFile);
      }
      match rename {
        case Renamed =>
          files := (files - {localPath})[target.value := files[localPath]];
        case RenameFails =>
          return Err(IoFailed);
        case CopyFails(written) =>
          files := files[target.value := Node(written, now)];
          return Err(IoFailed);
        case CrossDevice =>
          files := files[target.value := files[localPath].(mtime := now)];
          files := files - {localPath};
          assert files == (old(files) - {localPath})[target.value := old(files)[localPath].(mtime := now)];
      }
      return Ok(StoredFile(key, files[target.value].size));
    }

    method Delete(key: string) returns (r: Option<StorageError>)
      modifies this
      ensures (files, r) == AfterDelete(old(files), root, key)
    {
      var target := PathFor(root, key);
      if target.None? {
        return Some(EscapesRoot);
      }
      files := files - {target.value};
      return None;
    }

    method Exists(key: string) returns (r: Result<bool, StorageError>)
      ensures r == Existence(files, root, key)
    {
      var target := PathFor(root, key);
      if target.None? {
        return Err(EscapesRoot);
      }
      return Ok(target.value in files);
    }
  }

  /** At or below the root, component by component. */
  ghost predicate Under(root: Segments, path: string) {
    exists more :: Clean(more) && path == Absolute(root + more)
  }

  /** Nothing outside the root differs, except possibly at one path. */
  ghost predicate OnlyUnder(root: Segments, before: Files, after: Files, except: set<string>) {
    forall path :: !Under(root, path) && path !in except ==>
      (path in after <==> path in before) && (path in after ==> after[path] == before[path])
  }

  lemma TargetIsUnder(root: Segments, key: string)
    requires Clean(root) && root != [] && PathFor(Absolute(root), key).Some?
    ensures Under(root, PathFor(Absolute(root), key).value)
  {
    PathForIsContained(root, key);
    ResolveAfterJoin(root, key);
    var s := Resolved(root, Split(key));
    var more := s[|root|..];
    assert s == root + more;
    assert forall i :: 0 <= i < |more| ==> more[i] == s[|root| + i] && CleanSegment(s[|root| + i]);
  }

  /** Whatever the key, a write, a move or a delete touches nothing outside the root but the file being moved in. */
  lemma OperationsStayUnderRoot(
    root: Segments, files: Files, key: string, localPath: string, written: nat, completes: bool, rename: Rename, now: real)
    requires Clean(root) && root != []
    ensures OnlyUnder(root, files, AfterWrite(files, Absolute(root), key, written, completes, now).0, {})
    ensures OnlyUnder(root, files, AfterAdopt(files, Absolute(root), key, localPath, rename, now).0, {localPath})
    ensures OnlyUnder(root, files, AfterDelete(files, Absolute(root), key).0, {})
  {
    if PathFor(Absolute(root), key).Some? {
      TargetIsUnder(root, key);
    }
  }

  /**
   * An adopted file is where its key says, with its size, its staging path gone, and no other file changed;
   * when adopting fails the staged file is still there, and at most the target has changed.
   */
  lemma AdoptMovesOneFile(root: string, files: Files, key: string, localPath: string, rename: Rename, now: real)
    requires Possible(rename, root, key, localPath)
    ensures var (after, r) := AfterAdopt(files, root, key, localPath, rename, now);
            && (r.Ok? <==> PathFor(root, key).Some? && localPath in files && (rename.Renamed? || rename.CrossDevice?))
            && (r.Err? ==> (localPath in after <==> localPath in files))
            && (r.Ok? ==>
                  && r.value == StoredFile(key, files[localPath].size)
                  && after.Keys == files.Keys - {localPath} + {PathFor(root, key).value}
                  && after[PathFor(root, key).value].size == files[localPath].size)
            && forall p :: p != localPath && Some(p) != PathFor(root, key) ==>
                 (p in after <==> p in files) && (p in after ==> after[p] == files[p])
  {
  }

  /** `exists` answers what the operations did: true after a write or an adoption, false after a delete, and an error exactly where they refuse. */
  lemma ExistsTracksOperations(
    root: string, files: Files, key: string, localPath: string, written: nat, completes: bool, rename: Rename, now: real)
    requires Possible(rename, root, key, localPath)
    ensures var (after, r) := AfterWrite(files, root, key, written, completes, now);
            Existence(after, root, key) == if r == Err(EscapesRoot) then Err(EscapesRoot) else Ok(true)
    ensures var (after, r) := AfterAdopt(files, root, key, localPath, rename, now);
            r.Ok? ==> Existence(after, root, key) == Ok(true)
    ensures var (after, error) := AfterDelete(files, root, key);
            Existence(after, root, key) == if error == Some(EscapesRoot) then Err(EscapesRoot) else Ok(false)
    ensures forall other :: PathFor(root, other) != PathFor(root, key) ==>
      Existence(AfterDelete(files, root, key).0, root, other) == Existence(files, root, other)
  {
  }

  // Records.

  datatype FileRecord = FileRecord(id: string, storageKey: string, originalName: string, mimeType: string, size: nat)

  /** What Redis holds under a key: text of a record, JSON of something else, or no JSON at all. */
  datatype Raw = RecordText(record: FileRecord) | OtherJson | NotJson

  datatype Expiring = Expiring(raw: Raw, expiresAt: real)

  type Redis = map<string, Expiring>

  function RecordKey(id: string): string {
    "file:" + id
  }

  /** A key is gone once the clock is past its expiry. */
  predicate Present(redis: Redis, id: string, now: real) {
    RecordKey(id) in redis && now <= redis[RecordKey(id)].expiresAt
  }

  function Saved(redis: Redis, record: FileRecord, ttl: real, now: real): Redis {
    redis[RecordKey(record.id) := Expiring(RecordText(record), now + ttl)]
  }

  function Removed(redis: Redis, id: string): Redis {
    redis - {RecordKey(id)}
  }

  datatype ParseFailure = ParseFailure

  function Lookup(redis: Redis, id: string, now: real): Result<Option<FileRecord>, ParseFailure> {
    if !Present(redis, id, now) then Ok(None)
    else match redis[RecordKey(id)].raw
         case RecordText(r) => Ok(Some(r))
         case OtherJson => Ok(None)
         case NotJson => Err(ParseFailure)
  }

  class FileRepository {
    const ttl: real
    var redis: Redis

    constructor (ttl: real)
      ensures this.ttl == ttl && redis == map[]
    {
      this.ttl := ttl;
      redis := map[];
    }

    method Save(record: FileRecord, now: real)
      modifies this
      ensures redis == Saved(old(redis), record, ttl, now)
    {
      redis := redis["file:" + record.id := Expiring(RecordText(record), now + ttl)];
    }

    method Get(id: string, now: real) returns (r: Result<Option<FileRecord>, ParseFailure>)
      ensures r == Lookup(redis, id, now)
    {
      var key := "file:" + id;
      if key !in redis || redis[key].expiresAt < now {
        return Ok(None);
      }
      match redis[key].raw {
        case RecordText(record) => return Ok(Some(record));
        case OtherJson => return Ok(None);
        case NotJson => return Err(ParseFailure);
      }
    }

    method Delete(id: string)
      modifies this
      ensures redis == Removed(old(redis), id)
    {
      redis := redis - {"file:" + id};
    }

    method Exists(id: string, now: real) returns (r: bool)
      ensures r <==> Present(redis, id, now)
    {
      r := ("file:" + id) in redis && now <= redis["file:" + id].expiresAt;
    }
  }

  /** What a lookup finds: the record, nothing where the entry is not one, and a failure where it is no JSON at all. */
  lemma LookupExactly(redis: Redis, id: string, now: real, r: FileRecord)
    ensures var key := "file:" + id;
            var live := key in redis && now <= redis[key].expiresAt;
            && (Lookup(redis, id, now) == Ok(Some(r)) <==> live && redis[key].raw == RecordText(r))
            && (Lookup(redis, id, now).Err? <==> live && redis[key].raw == NotJson)
            && (Lookup(redis, id, now) == Ok(None) <==> !live || redis[key].raw == OtherJson)
  {
  }

  /** A saved record is read back until its time to live has passed, and saving touches no other id. */
  lemma SavedUntilExpiry(redis: Redis, record: FileRecord, ttl: real, now: real, id: string, later: real)
    ensures Lookup(Saved(redis, record, ttl, now), id, later) ==
              if id != record.id then Lookup(redis, id, later)
              else if later <= now + ttl then Ok(Some(record)) else Ok(None)
    ensures Lookup(Removed(redis, record.id), id, later) == if id == record.id then Ok(None) else Lookup(redis, id, later)
    ensures Present(Saved(redis, record, ttl, now), id, later) <==>
      if id == record.id then later <= now + ttl else Present(redis, id, later)
  {
    assert RecordKey(id)[5..] == id && RecordKey(record.id)[5..] == record.id;
  }
}
