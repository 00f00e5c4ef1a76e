/**
 * The share table: the columns of an `oc_share` row the migration reads,
 * the update it plans for a row, and `updateShareTable`, which applies
 * the update unless running dry and checks how many rows it touched.
 *
 * The database is not modelled: what it answers to the prepared update is
 * given as input.
 */
module ShareStore {
  import opened GoStrings
  import opened Common
  import opened EosPath
  import opened FileInfo

  /** The columns of an `oc_share` row that the migration selects; nullable columns are options. */
  datatype ShareInfo = ShareInfo(
    id: Int64,
    shareType: int,
    itemSource: Option<string>,
    itemTarget: Option<string>,
    fileSource: Option<Int64>,
    fileTarget: Option<string>)

  /** `s.FileSource.Int64`: the inode the share points at, 0 when the column is NULL. */
  function FileSourceInode(s: ShareInfo): Int64
  {
    if s.fileSource.Some? then s.fileSource.value else 0
  }

  /** `UPDATE oc_share SET item_source=?, item_target=?, file_source=?, file_target=? WHERE id=?` */
  datatype UpdatePlan = UpdatePlan(itemSource: string, itemTarget: string, fileSource: Int64, fileTarget: string, id: Int64)

  /** The values `updateShareTable` binds, for the row of the share. */
  function PlanFor(share: ShareInfo, versions: Metadata): UpdatePlan
  {
    var inode := FormatInt(versions.inode);
    UpdatePlan(inode, "/" + inode, versions.inode, "/" + Base(versions.path), share.id)
  }

  /**
   * The plan re-points the row of the share at the version folder: its
   * inode in decimal (which reads back as the inode), that number as a
   * root-level target, the inode itself, and the folder's own name as a
   * root-level target.
   */
  lemma PlanForValues(share: ShareInfo, versions: Metadata)
    ensures var plan := PlanFor(share, versions);
            && ParseInt(plan.itemSource) == Parsed(versions.inode, NoError)
            && plan.itemTarget == "/" + plan.itemSource
            && plan.fileSource == versions.inode
            && |plan.fileTarget| >= 2 && plan.fileTarget[0] == '/'
            // for a clean path, with or without a folder's trailing '/', the target is
            // the folder's own name directly under the root
            && (IsListedPath(versions.path) ==>
                  IsFilePath(plan.fileTarget) && Dir(plan.fileTarget) == "/" && Base(plan.fileTarget) == Base(versions.path))
            && plan.id == share.id
  {
    ParseFormatInt(versions.inode);
    PlanTargetsFolder(versions.path);
  }

  /**
   * `"/" + path.Base(p)` is never bare `/`; for a clean path, listed with
   * or without a folder's trailing '/', it is that entry's name at the root.
   */
  lemma PlanTargetsFolder(p: string)
    ensures var t := "/" + Base(p);
            && |t| >= 2 && t[0] == '/'
            && (IsListedPath(p) ==> IsFilePath(t) && Dir(t) == "/" && Base(t) == Base(p))
  {
    if IsFilePath(p) {
      NameAtRoot(p);
    } else if IsListedPath(p) {
      var q := p[..|p| - 1];
      assert p == q + "/";
      BaseTrailingSlash(q);
      NameAtRoot(q);
    }
  }

  /** The base name of a clean path, put under the root, is a clean path with that name. */
  lemma NameAtRoot(q: string)
    requires IsFilePath(q)
    ensures var t := "/" + Base(q);
            IsFilePath(t) && Dir(t) == "/" && Base(t) == Base(q)
  {
    FilePathCut(q);
    JoinedPath("/", Base(q));
    assert "" + "/" + Base(q) == "/" + Base(q);
  }

  /** What the database answers to the prepared update. */
  datatype DbResponse =
    | PrepareFailed
    | ExecFailed
    | RowsAffectedFailed
    | RowsAffected(n: Int64)

  /** How a successful `updateShareTable` ended: nothing written (dry run) or the row updated. */
  datatype Applied = DryRun | Written

  /**
   * `updateShareTable` after the plan is built. In dry-run mode nothing is
   * sent. Otherwise a failed prepare, exec or row count is a database
   * error, and a count of 0 or more than 1 means the share is gone.
   */
  function UpdateShareTable(plan: UpdatePlan, noTouchDb: bool, db: DbResponse): (r: Result<Applied>)
    ensures noTouchDb ==> r == Ok(DryRun)
    ensures !noTouchDb ==> r != Ok(DryRun)
    ensures !noTouchDb && !db.RowsAffected? ==> r == Err(DatabaseError)
    ensures !noTouchDb && db.RowsAffected? ==>
              (r == Ok(Written) <==> db.n != 0 && db.n <= 1)
              && (r.Err? ==> r.error == ShareVanished(plan.id))
    // for any count the database can report, exactly one row is success
    ensures !noTouchDb && db.RowsAffected? && db.n >= 0 ==> (r.Ok? <==> db.n == 1)
  {
    if noTouchDb then Ok(DryRun)
    else
      match db
      case PrepareFailed => Err(DatabaseError)
      case ExecFailed => Err(DatabaseError)
      case RowsAffectedFailed => Err(DatabaseError)
      case RowsAffected(n) =>
        if n == 0 || n > 1 then Err(ShareVanished(plan.id)) else Ok(Written)
  }
}
