/**
 * The per-record reconciliation: for one public file share, resolve the
 * shared inode to its EOS path, decide what the share points at, and
 * re-point the share row at the version folder of the file.
 *
 * A share is skipped when it already points at a version folder or when
 * the file is outside the users' home tree. A share on a version file
 * (inside a version folder) is re-pointed at that folder; any other share
 * is re-pointed at the file's version folder, which is created if needed.
 */
module Reconcile {
  import opened GoStrings
  import opened Common
  import opened EosPath
  import opened FileInfo
  import opened Backend
  import opened ShareStore

  /** The settings that reach the reconciliation: `-userprefix` and `-notouchdb`. */
  datatype Config = Config(userPrefix: string, noTouchDb: bool)

  /** The decision taken on a share's resolved path, first match wins. */
  datatype Classification =
    | AlreadyVersionPointer     // its name has the version prefix: it is a version folder
    | OutsideHome               // not under the users' home tree
    | PointsIntoVersionFolder   // its parent is a version folder: it is a version of a file
    | NeedsVersionFolder        // a plain file under a home directory

  /** The last piece of a clean file path split on '/' is its base name. */
  lemma LastPiece(p: string)
    requires IsFilePath(p)
    ensures Split(p, '/')[|Split(p, '/')| - 1] == Base(p)
  {
    FilePathCut(p);
    var i := LastIndexOf(p, '/');
    SplitAtLastSeparator(p[..i], Base(p), '/');
  }

  /**
   * `parts[len(parts)-2]` for a clean file path: the name of the directory
   * holding it, or the empty string for a file directly under the root.
   */
  lemma ParentDirName(p: string)
    requires IsFilePath(p)
    ensures |Split(p, '/')| >= 2
    ensures Split(p, '/')[|Split(p, '/')| - 2] == (if Dir(p) == "/" then "" else Base(Dir(p)))
  {
    JoinDirBase(p);
    JoinedParent(p, Dir(p), Base(p));
  }

  /** Split on '/', a name joined to a directory comes right after the directory's own name. */
  lemma JoinedParent(p: string, dir: string, name: string)
    requires IsDirPath(dir) && '/' !in name && p == (if dir == "/" then "" else dir) + "/" + name
    ensures |Split(p, '/')| >= 2
    ensures Split(p, '/')[|Split(p, '/')| - 2] == (if dir == "/" then "" else Base(dir))
  {
    var head := if dir == "/" then "" else dir;
    SplitAtLastSeparator(head, name, '/');
    if dir != "/" {
      LastPiece(dir);
    }
  }

  /** `parentDir` of the per-record goroutine: `parts[len(parts)-2]` of the path split on '/'. */
  function ParentDir(p: string): (name: string)
    requires IsFilePath(p)
    ensures name == (if Dir(p) == "/" then "" else Base(Dir(p)))
  {
    ParentDirName(p);
    var parts := Split(p, '/');
    parts[|parts| - 2]
  }

  /** The classification block of the reconciliation. */
  function Classify(p: string, userPrefix: string): Classification
    requires IsFilePath(p)
  {
    var parentDir := ParentDir(p);
    if HasPrefix(Base(p), VersionsPrefix) then AlreadyVersionPointer
    else if !HasPrefix(p, userPrefix) then OutsideHome
    else if HasPrefix(parentDir, VersionsPrefix) then PointsIntoVersionFolder
    else NeedsVersionFolder
  }

  /**
   * When each decision is taken: a path whose own name has the version
   * prefix is a version folder; otherwise one outside the home tree is
   * skipped; otherwise one whose directory (not the root) has the version
   * prefix is a version of a file; everything else needs a version folder.
   */
  lemma ClassifyMeaning(p: string, userPrefix: string)
    requires IsFilePath(p)
    ensures var c := Classify(p, userPrefix);
            && (c == AlreadyVersionPointer <==> HasPrefix(Base(p), VersionsPrefix))
            && (c == OutsideHome <==> !HasPrefix(Base(p), VersionsPrefix) && !HasPrefix(p, userPrefix))
            && (c == PointsIntoVersionFolder <==>
                  && !HasPrefix(Base(p), VersionsPrefix) && HasPrefix(p, userPrefix)
                  && Dir(p) != "/" && HasPrefix(Base(Dir(p)), VersionsPrefix))
            && (c == NeedsVersionFolder <==>
                  && !HasPrefix(Base(p), VersionsPrefix) && HasPrefix(p, userPrefix)
                  && (Dir(p) == "/" || !HasPrefix(Base(Dir(p)), VersionsPrefix)))
  {
    var parentDir := ParentDir(p);
    assert parentDir == "" ==> !HasPrefix(parentDir, VersionsPrefix);
  }

  /** What happened to one share record. */
  datatype RecordOutcome =
    | Skipped(reason: Classification)
    | Updated(plan: UpdatePlan, applied: Applied)
    | Failed(error: Error)

  /** The last step of both update branches: build the plan and hand it to `updateShareTable`. */
  function Apply(cfg: Config, share: ShareInfo, versions: Metadata, db: DbResponse): (o: RecordOutcome)
    ensures o.Updated? || o.Failed?
    ensures o.Updated? ==> o.plan == PlanFor(share, versions) && (o.applied == DryRun <==> cfg.noTouchDb)
    ensures o.Updated? <==> cfg.noTouchDb || (db.RowsAffected? && db.n != 0 && db.n <= 1)
    ensures cfg.noTouchDb ==> o == Updated(PlanFor(share, versions), DryRun)
    ensures o.Failed? ==> o.error == DatabaseError || o.error == ShareVanished(share.id)
  {
    var plan := PlanFor(share, versions);
    match UpdateShareTable(plan, cfg.noTouchDb, db)
    case Ok(applied) => Updated(plan, applied)
    case Err(e) => Failed(e)
  }

  /**
   * What follows the classification, once it is known: `dir` is the
   * file's directory, `first` the answer to looking it up, and `folder`
   * what `getVersionsFolderMetadata` gives; only the branch taken uses
   * its own.
   */
  function Proceed(c: Classification, cfg: Config, share: ShareInfo, dir: string, first: Result<Metadata>,
                   folder: (Result<Metadata>, seq<Call>), db: DbResponse): (RecordOutcome, seq<Call>)
  {
    if c == AlreadyVersionPointer || c == OutsideHome then (Skipped(c), [])
    else if c == PointsIntoVersionFolder then
      var calls := [InfoByPath(dir)];
      match first
      case Err(e) => (Failed(e), calls)
      case Ok(versions) => (Apply(cfg, share, versions, db), calls)
    else
      var (r, calls) := folder;
      match r
      case Err(e) => (Failed(e), calls)
      case Ok(versions) => (Apply(cfg, share, versions, db), calls)
  }

  /**
   * The classification block and what follows it, for a share whose inode
   * resolved to `file`. `lookups` are the answers to the path lookups made
   * from here on, in order; `createError` is the answer to a version-folder
   * creation; `db` is the database's answer to the update. Gives the
   * outcome and the `eos` calls made.
   */
  function ReconcileFile(cfg: Config, share: ShareInfo, file: Metadata,
                         lookups: nat -> Result<Metadata>, createError: Option<Error>, db: DbResponse)
    : (RecordOutcome, seq<Call>)
    requires IsFilePath(file.path)
  {
    Proceed(Classify(file.path, cfg.userPrefix), cfg, share, Dir(file.path), lookups(0),
            VersionsFolder(file, lookups, createError), db)
  }

  /** The two skips: a version folder, or a file outside the home tree, makes no call and no update. */
  lemma ReconcileFileSkips(cfg: Config, share: ShareInfo, file: Metadata,
                           lookups: nat -> Result<Metadata>, createError: Option<Error>, db: DbResponse)
    requires IsFilePath(file.path)
    ensures var out := ReconcileFile(cfg, share, file, lookups, createError, db);
            && (out.0.Skipped? <==> Classify(file.path, cfg.userPrefix) in {AlreadyVersionPointer, OutsideHome})
            && (out.0.Skipped? ==> out.0.reason == Classify(file.path, cfg.userPrefix) && out.1 == [])
  {
    ProceedSkips(Classify(file.path, cfg.userPrefix), cfg, share, Dir(file.path), lookups(0),
                 VersionsFolder(file, lookups, createError), db);
  }

  /** Only the two skip decisions skip, and they make no call. */
  lemma ProceedSkips(c: Classification, cfg: Config, share: ShareInfo, dir: string, first: Result<Metadata>,
                     folder: (Result<Metadata>, seq<Call>), db: DbResponse)
    ensures var out := Proceed(c, cfg, share, dir, first, folder, db);
            && (out.0.Skipped? <==> c in {AlreadyVersionPointer, OutsideHome})
            && (out.0.Skipped? ==> out.0.reason == c && out.1 == [])
  {
    if !(c == AlreadyVersionPointer || c == OutsideHome) {
      var out := Proceed(c, cfg, share, dir, first, folder, db);
      assert out.0.Updated? || out.0.Failed?;
    }
  }

  /**
   * A version of a file: its folder (the file's directory) is looked up,
   * and the share is updated with it; a failed lookup ends the record.
   */
  lemma ReconcileFileVersion(cfg: Config, share: ShareInfo, file: Metadata,
                             lookups: nat -> Result<Metadata>, createError: Option<Error>, db: DbResponse)
    requires IsFilePath(file.path)
    requires Classify(file.path, cfg.userPrefix) == PointsIntoVersionFolder
    ensures var out := ReconcileFile(cfg, share, file, lookups, createError, db);
            && out.1 == [InfoByPath(Dir(file.path))]
            && (lookups(0).Err? ==> out.0 == Failed(lookups(0).error))
            && (lookups(0).Ok? ==> out.0 == Apply(cfg, share, lookups(0).value, db))
  {
    var out := ReconcileFile(cfg, share, file, lookups, createError, db);
    assert out.1 == [InfoByPath(Dir(file.path))];
  }

  /**
   * A plain file: its version folder is found or created by
   * `getVersionsFolderMetadata`, whose calls are the record's, and the
   * share is updated with the folder; an error ends the record.
   */
  lemma ReconcileFilePlain(cfg: Config, share: ShareInfo, file: Metadata,
                           lookups: nat -> Result<Metadata>, createError: Option<Error>, db: DbResponse)
    requires IsFilePath(file.path)
    requires Classify(file.path, cfg.userPrefix) == NeedsVersionFolder
    ensures var out := ReconcileFile(cfg, share, file, lookups, createError, db);
            var (r, calls) := VersionsFolder(file, lookups, createError);
            && out.1 == calls
            && (r.Err? ==> out.0 == Failed(r.error))
            && (r.Ok? ==> out.0 == Apply(cfg, share, r.value, db))
  {
    var out := ReconcileFile(cfg, share, file, lookups, createError, db);
    var (r, calls) := VersionsFolder(file, lookups, createError);
    assert out.1 == calls;
  }

  /**
   * The body of the per-share goroutine: resolve the share's inode with
   * `eos file info inode:<n>` (whose answer is `inodeAnswer`), then go on
   * with the resolved file. Path lookups and the creation are answered by
   * `pathAnswers` and `createAnswer`.
   */
  function ReconcileShare(cfg: Config, share: ShareInfo, inodeAnswer: CmdOutcome,
                          pathAnswers: nat -> CmdOutcome, createAnswer: CmdOutcome, db: DbResponse)
    : (out: (RecordOutcome, seq<Call>))
    requires Lookup(inodeAnswer).Ok? ==> IsFilePath(Lookup(inodeAnswer).value.path)
    ensures |out.1| >= 1 && out.1[0] == InfoByInode(FileSourceInode(share))
    // a failed inode lookup ends the record
    ensures Lookup(inodeAnswer).Err? ==> out == (Failed(Lookup(inodeAnswer).error), [InfoByInode(FileSourceInode(share))])
    ensures Lookup(inodeAnswer).Ok? ==>
              var (o, calls) := ReconcileFile(cfg, share, Lookup(inodeAnswer).value, Resolved(pathAnswers), CommandError(createAnswer), db);
              out.0 == o && out.1[1..] == calls
  {
    var first := InfoByInode(FileSourceInode(share));
    match Lookup(inodeAnswer)
    case Err(e) => (Failed(e), [first])
    case Ok(meta) =>
      var (o, calls) := ReconcileFile(cfg, share, meta, Resolved(pathAnswers), CommandError(createAnswer), db);
      (o, [first] + calls)
  }

  /**
   * The migration is idempotent: once a share points at the version
   * folder of its file, a later run resolves it to that folder and skips it.
   * `eos` lists that folder with a trailing '/', which `path.Base` drops, so
   * the listed form passes the same name test.
   */
  lemma VersionFolderIsSkipped(p: string, userPrefix: string)
    requires IsFilePath(p)
    ensures Classify(VersionsPath(p), userPrefix) == AlreadyVersionPointer
    ensures IsListedPath(VersionsPath(p) + "/")
    ensures Base(VersionsPath(p) + "/") == Base(VersionsPath(p))
    ensures HasPrefix(Base(VersionsPath(p) + "/"), VersionsPrefix)
  {
    ClassifyMeaning(VersionsPath(p), userPrefix);
    HasPrefixAppend(VersionsPrefix, Base(p), Base(VersionsPath(p)));
    BaseTrailingSlash(VersionsPath(p));
  }

  /**
   * A share on a version of a file and a share on the file itself are
   * re-pointed at the same folder: for a file `q` under the home tree and
   * a version `v` inside its version folder, the version's update target
   * (its directory) is the file's version folder.
   */
  lemma VersionAndFileShareOneFolder(q: string, version: string, userPrefix: string)
    requires IsFilePath(q) && IsName(version) && !HasPrefix(version, VersionsPrefix)
    requires !HasPrefix(Base(q), VersionsPrefix) && HasPrefix(q, userPrefix)
    requires Dir(q) == "/" || !HasPrefix(Base(Dir(q)), VersionsPrefix)
    requires HasPrefix(EosPath.Join(VersionsPath(q), version), userPrefix)
    ensures var v := EosPath.Join(VersionsPath(q), version);
            && Classify(q, userPrefix) == NeedsVersionFolder
            && Classify(v, userPrefix) == PointsIntoVersionFolder
            && Dir(v) == VersionsPath(q)
  {
    var vp := VersionsPath(q);
    var v := EosPath.Join(vp, version);
    assert Base(vp)[..|VersionsPrefix|] == VersionsPrefix;
    assert Dir(v) == vp && Base(v) == version;
    ClassifyMeaning(q, userPrefix);
    ClassifyMeaning(v, userPrefix);
  }

  /**
   * A dry run decides everything except the write: with `-notouchdb` the
   * database's answer makes no difference, and a share that reaches the
   * update step is reported as planned but not written.
   */
  lemma DryRunWritesNothing(cfg: Config, share: ShareInfo, inodeAnswer: CmdOutcome,
                            pathAnswers: nat -> CmdOutcome, createAnswer: CmdOutcome, db1: DbResponse, db2: DbResponse)
    requires Lookup(inodeAnswer).Ok? ==> IsFilePath(Lookup(inodeAnswer).value.path)
    requires cfg.noTouchDb
    ensures ReconcileShare(cfg, share, inodeAnswer, pathAnswers, createAnswer, db1)
         == ReconcileShare(cfg, share, inodeAnswer, pathAnswers, createAnswer, db2)
    ensures var o := ReconcileShare(cfg, share, inodeAnswer, pathAnswers, createAnswer, db1).0;
            o.Updated? ==> o.applied == DryRun
  {
    var file := Lookup(inodeAnswer);
    if file.Ok? {
      DryRunFile(cfg, share, file.value, Resolved(pathAnswers), CommandError(createAnswer), db1, db2);
    }
  }

  /** `DryRunWritesNothing` for a share whose inode resolved to `file`. */
  lemma DryRunFile(cfg: Config, share: ShareInfo, file: Metadata,
                   lookups: nat -> Result<Metadata>, createError: Option<Error>, db1: DbResponse, db2: DbResponse)
    requires IsFilePath(file.path)
    requires cfg.noTouchDb
    ensures ReconcileFile(cfg, share, file, lookups, createError, db1) == ReconcileFile(cfg, share, file, lookups, createError, db2)
    ensures var o := ReconcileFile(cfg, share, file, lookups, createError, db1).0;
            o.Updated? ==> o.applied == DryRun
  {
    var out1 := ReconcileFile(cfg, share, file, lookups, createError, db1);
    var out2 := ReconcileFile(cfg, share, file, lookups, createError, db2);
    var c := Classify(file.path, cfg.userPrefix);
    if c == PointsIntoVersionFolder {
      ReconcileFileVersion(cfg, share, file, lookups, createError, db1);
      ReconcileFileVersion(cfg, share, file, lookups, createError, db2);
      if lookups(0).Ok? {
        assert out1.0 == Apply(cfg, share, lookups(0).value, db1);
        assert out2.0 == Apply(cfg, share, lookups(0).value, db2);
      }
    } else if c == NeedsVersionFolder {
      ReconcileFilePlain(cfg, share, file, lookups, createError, db1);
      ReconcileFilePlain(cfg, share, file, lookups, createError, db2);
      var (r, calls) := VersionsFolder(file, lookups, createError);
      if r.Ok? {
        assert out1.0 == Apply(cfg, share, r.value, db1);
        assert out2.0 == Apply(cfg, share, r.value, db2);
      }
    } else {
      ReconcileFileSkips(cfg, share, file, lookups, createError, db1);
      ReconcileFileSkips(cfg, share, file, lookups, createError, db2);
    }
  }

  /**
   * A plain file whose version folder does not exist yet: the lookup exits
   * with status 2, the creation succeeds, the first retry still misses and
   * the second finds the folder. The share is re-pointed at that folder.
   */
  lemma CreatedFolderIsUsed(cfg: Config, share: ShareInfo, file: Metadata,
                            lookups: nat -> Result<Metadata>, versions: Metadata, missing: Error)
    requires IsFilePath(file.path)
    requires Classify(file.path, cfg.userPrefix) == NeedsVersionFolder
    requires lookups(0) == Err(ExitStatus(NotFoundStatus))
    requires lookups(1) == Err(missing) && lookups(2) == Ok(versions)
    ensures var lookup := VersionsLookup(file.path);
            ReconcileFile(cfg, share, file, lookups, None, RowsAffected(1))
              == (Updated(PlanFor(share, versions), if cfg.noTouchDb then DryRun else Written),
                  [lookup, CreateVersion(file.uid, file.gid, file.path), lookup, lookup])
  {
    var lookup := VersionsLookup(file.path);
    var calls := [lookup, CreateVersion(file.uid, file.gid, file.path), lookup, lookup];
    FoundOnSecondRetry(file, lookups, versions, missing);
    var db := RowsAffected(1);
    var out := ReconcileFile(cfg, share, file, lookups, None, db);
    ReconcileFilePlain(cfg, share, file, lookups, None, db);
    assert out.1 == calls;
    assert out.0 == Apply(cfg, share, versions, db);
    OneRowWritten(cfg, share, versions);
    var expected := Updated(PlanFor(share, versions), if cfg.noTouchDb then DryRun else Written);
    assert out.0 == expected;
    assert out == (expected, calls);
  }

  /** Exactly one row touched: the share is updated with the plan, written unless dry. */
  lemma OneRowWritten(cfg: Config, share: ShareInfo, versions: Metadata)
    ensures Apply(cfg, share, versions, RowsAffected(1))
         == Updated(PlanFor(share, versions), if cfg.noTouchDb then DryRun else Written)
  {
  }
}
