/**
 * The EOS client: lookups by inode or by path, version-folder creation,
 * and `getVersionsFolderMetadata`, which looks the version folder of a
 * file up, creates it when EOS reports it missing (exit status 2), and
 * then retries the lookup a bounded number of times while the creation
 * propagates.
 *
 * The `eos` command itself is not modelled: what it answers is given as
 * input. `lookups(k)` is the result of the k-th path lookup made for one
 * share record, and `createError` is the error the creation command
 * reports, if any.
 */
module Backend {
  import opened GoStrings
  import opened Common
  import opened EosPath
  import opened FileInfo

  /** What running an `eos` command gives: its standard output, a non-zero exit status, or no run at all. */
  datatype CmdOutcome = Exited0(stdout: string) | ExitFailure(status: int) | NotRun

  /** The `eos` invocations, in the order they are made. */
  datatype Call =
    | InfoByInode(inode: int)                             // eos -r 0 0 file info inode:<n> -m
    | InfoByPath(path: string)                            // eos -r 0 0 file info <path> -m
    | CreateVersion(uid: string, gid: string, path: string) // eos -r <uid> <gid> file version <path>

  /** The error `executeCMD` hands back for a command outcome, if any. */
  function CommandError(o: CmdOutcome): (e: Option<Error>)
    ensures e.None? <==> o.Exited0?
  {
    match o
    case Exited0(_) => None
    case ExitFailure(status) => Some(ExitStatus(status))
    case NotRun => Some(CommandNotRun)
  }

  /**
   * `getMetadataFromEOS` / `getMetadataFromEOSPath`: a failed command is
   * its error, a successful one is parsed. An exit-status error can only
   * come from the command, never from the parser.
   */
  function Lookup(o: CmdOutcome): (r: Result<Metadata>)
    ensures (r.Err? && r.error.ExitStatus?) <==> o.ExitFailure?
    ensures o.ExitFailure? ==> r == Err(ExitStatus(o.status))
    ensures o.Exited0? ==> r == Parse(o.stdout)
    // a command that could not be run is an error, never a parse
    ensures o.NotRun? ==> r == Err(CommandNotRun)
    ensures r.Ok? ==> o.Exited0?
  {
    match o
    case Exited0(stdout) => Parse(stdout)
    case ExitFailure(status) => Err(ExitStatus(status))
    case NotRun => Err(CommandNotRun)
  }

  /** The answers of a series of path lookups, as `getMetadataFromEOSPath` returns them. */
  function Resolved(answers: nat -> CmdOutcome): nat -> Result<Metadata>
  {
    (k: nat) => Lookup(answers(k))
  }

  /** EOS's exit status for "no such file or directory". */
  const NotFoundStatus: int := 2

  /** `maxRetries` of `getVersionsFolderMetadata`: lookups made after the version folder is created. */
  const MaxRetries: nat := 5

  /** `n` copies of `c`. */
  function Repeat(c: Call, n: nat): (calls: seq<Call>)
    ensures |calls| == n && forall i :: 0 <= i < n ==> calls[i] == c
  {
    if n == 0 then [] else Repeat(c, n - 1) + [c]
  }

  lemma RepeatTwice(c: Call)
    ensures Repeat(c, 2) == [c, c]
  {
    assert Repeat(c, 0) == [];
  }

  /**
   * The retry loop: look up again, starting at the `from`-th lookup, until
   * one succeeds or `budget` lookups have been made. Gives the result of
   * the last lookup and the number made.
   */
  function Retry(lookups: nat -> Result<Metadata>, from: nat, budget: nat): (out: (Result<Metadata>, nat))
    requires budget >= 1
    ensures 1 <= out.1 <= budget
    ensures out.0 == lookups(from + out.1 - 1)
    ensures forall j :: from <= j < from + out.1 - 1 ==> lookups(j).Err?
    ensures out.0.Err? ==> out.1 == budget
    decreases budget
  {
    var r := lookups(from);
    if r.Ok? || budget == 1 then (r, 1)
    else
      var (last, n) := Retry(lookups, from + 1, budget - 1);
      (last, n + 1)
  }

  /** The retry loop's outcome is the only one that stops at the first success and gives up only after `budget` failures. */
  lemma {:induction false} RetryUnique(lookups: nat -> Result<Metadata>, from: nat, budget: nat, r: Result<Metadata>, n: nat)
    requires 1 <= n <= budget
    requires r == lookups(from + n - 1)
    requires forall j :: from <= j < from + n - 1 ==> lookups(j).Err?
    requires r.Err? ==> n == budget
    ensures Retry(lookups, from, budget) == (r, n)
    decreases n
  {
    if n > 1 {
      assert lookups(from).Err?;
      RetryUnique(lookups, from + 1, budget - 1, r, n - 1);
    }
  }

  /** The lookup of the version folder of the file at `p`. */
  function VersionsLookup(p: string): Call
    requires IsFilePath(p)
  {
    InfoByPath(VersionsPath(p))
  }

  /**
   * `getVersionsFolderMetadata` as a function of the backend's answers:
   * the result and the `eos` calls made, in order.
   */
  function VersionsFolder(file: Metadata, lookups: nat -> Result<Metadata>, createError: Option<Error>)
    : (Result<Metadata>, seq<Call>)
    requires IsFilePath(file.path)
  {
    var lookup := VersionsLookup(file.path);
    var first := lookups(0);
    if first != Err(ExitStatus(NotFoundStatus)) then (first, [lookup])
    else
      var create := CreateVersion(file.uid, file.gid, file.path);
      if createError.Some? then (Err(createError.value), [lookup, create])
      else
        var (r, n) := Retry(lookups, 1, MaxRetries);
        (r, [lookup, create] + Repeat(lookup, n))
  }

  /**
   * What `getVersionsFolderMetadata` promises: one lookup of the version
   * folder; the creation, as the file's owner, exactly when that lookup
   * exits with status 2; then 1 to `MaxRetries` lookups of the same path,
   * stopping at the first success. Any other answer to the first lookup,
   * and a creation error, is the result as it is.
   */
  lemma VersionsFolderProtocol(file: Metadata, lookups: nat -> Result<Metadata>, createError: Option<Error>)
    requires IsFilePath(file.path)
    ensures var (r, calls) := VersionsFolder(file, lookups, createError);
            var notFound := lookups(0) == Err(ExitStatus(NotFoundStatus));
            && 1 <= |calls| <= 2 + MaxRetries
            && calls[0] == VersionsLookup(file.path)
            && (notFound <==> |calls| >= 2)
            && (|calls| >= 2 ==> calls[1] == CreateVersion(file.uid, file.gid, file.path))
            && (!notFound ==> r == lookups(0))
            && (notFound && createError.Some? ==> r == Err(createError.value) && |calls| == 2)
            && (notFound && createError.None? ==>
                  && 3 <= |calls|
                  && (forall i :: 2 <= i < |calls| ==> calls[i] == calls[0])
                  && r == lookups(|calls| - 2)
                  && (forall j :: 1 <= j < |calls| - 2 ==> lookups(j).Err?)
                  && (r.Err? ==> |calls| == 2 + MaxRetries))
  {
    var lookup := VersionsLookup(file.path);
    VersionsFolderCases(file, lookups, createError);
    if lookups(0) == Err(ExitStatus(NotFoundStatus)) && createError.None? {
      var (r, n) := Retry(lookups, 1, MaxRetries);
      var calls := [lookup, CreateVersion(file.uid, file.gid, file.path)] + Repeat(lookup, n);
      assert VersionsFolder(file, lookups, createError) == (r, calls);
      assert forall i :: 2 <= i < |calls| ==> calls[i] == Repeat(lookup, n)[i - 2];
    }
  }

  /** `VersionsFolder` unfolded once, case by case. */
  lemma VersionsFolderCases(file: Metadata, lookups: nat -> Result<Metadata>, createError: Option<Error>)
    requires IsFilePath(file.path)
    ensures lookups(0) != Err(ExitStatus(NotFoundStatus)) ==>
              VersionsFolder(file, lookups, createError) == (lookups(0), [VersionsLookup(file.path)])
    ensures lookups(0) == Err(ExitStatus(NotFoundStatus)) && createError.Some? ==>
              VersionsFolder(file, lookups, createError)
                == (Err(createError.value), [VersionsLookup(file.path), CreateVersion(file.uid, file.gid, file.path)])
    ensures lookups(0) == Err(ExitStatus(NotFoundStatus)) && createError.None? ==>
              VersionsFolder(file, lookups, createError)
                == (Retry(lookups, 1, MaxRetries).0,
                    [VersionsLookup(file.path), CreateVersion(file.uid, file.gid, file.path)]
                      + Repeat(VersionsLookup(file.path), Retry(lookups, 1, MaxRetries).1))
  {
  }

  /**
   * The retry loop of `getVersionsFolderMetadata`, step by step:
   * `err` starts as the placeholder "version not created yet", and each
   * round looks `lookup` up again, keeps its answer and decrements
   * `maxRetries`, until an answer succeeds or the retries run out.
   */
  method RetryLookups(lookup: Call, lookups: nat -> Result<Metadata>) returns (last: Result<Metadata>, made: seq<Call>)
    ensures var (r, n) := Retry(lookups, 1, MaxRetries);
            last == r && made == Repeat(lookup, n)
  {
    var maxRetries := MaxRetries;
    last := Err(VersionNotCreatedYet);
    made := [];
    var k: nat := 1;
    while maxRetries > 0 && last.Err?
      invariant 0 <= maxRetries <= MaxRetries && k == 1 + MaxRetries - maxRetries
      invariant k == 1 ==> last == Err(VersionNotCreatedYet)
      invariant k > 1 ==> last == lookups(k - 1)
      invariant forall j :: 1 <= j < k - 1 ==> lookups(j).Err?
      invariant made == Repeat(lookup, k - 1)
      decreases maxRetries
    {
      last := lookups(k);
      made := made + [lookup];
      maxRetries := maxRetries - 1;
      k := k + 1;
    }
    RetryUnique(lookups, 1, MaxRetries, last, k - 1);
  }

  /**
   * `getVersionsFolderMetadata`, step by step: one lookup, and on
   * exit status 2 the creation followed by the retry loop.
   */
  method GetVersionsFolderMetadata(file: Metadata, lookups: nat -> Result<Metadata>, createError: Option<Error>)
    returns (r: Result<Metadata>, calls: seq<Call>)
    requires IsFilePath(file.path)
    ensures (r, calls) == VersionsFolder(file, lookups, createError)
  {
    var lookup := VersionsLookup(file.path);
    r := lookups(0);
    calls := [lookup];
    if r.Err? {
      var err := r.error;
      if err.ExitStatus? && err.status == NotFoundStatus {
        var create := CreateVersion(file.uid, file.gid, file.path);
        calls := [lookup, create];
        if createError.Some? {
          r := Err(createError.value);
          return;
        }
        var made;
        r, made := RetryLookups(lookup, lookups);
        calls := calls + made;
      }
    }
  }

  /**
   * A version folder that does not exist yet: the lookup exits with status
   * 2, the creation succeeds, the first retry still misses and the second
   * finds the folder, after four calls.
   */
  lemma FoundOnSecondRetry(file: Metadata, lookups: nat -> Result<Metadata>, versions: Metadata, missing: Error)
    requires IsFilePath(file.path)
    requires lookups(0) == Err(ExitStatus(NotFoundStatus))
    requires lookups(1) == Err(missing) && lookups(2) == Ok(versions)
    ensures var lookup := VersionsLookup(file.path);
            VersionsFolder(file, lookups, None)
              == (Ok(versions), [lookup, CreateVersion(file.uid, file.gid, file.path), lookup, lookup])
  {
    VersionsFolderCases(file, lookups, None);
    RetriedTwice(VersionsLookup(file.path), CreateVersion(file.uid, file.gid, file.path), lookups, versions, missing);
  }

  /** The retry loop after a miss then a hit: two lookups, ending with the hit. */
  lemma RetriedTwice(lookup: Call, create: Call, lookups: nat -> Result<Metadata>, versions: Metadata, missing: Error)
    requires lookups(1) == Err(missing) && lookups(2) == Ok(versions)
    ensures (Retry(lookups, 1, MaxRetries).0, [lookup, create] + Repeat(lookup, Retry(lookups, 1, MaxRetries).1))
              == (Ok(versions), [lookup, create, lookup, lookup])
  {
    RetryUnique(lookups, 1, MaxRetries, Ok(versions), 2);
    RepeatTwice(lookup);
    assert [lookup, create] + [lookup, lookup] == [lookup, create, lookup, lookup];
  }
}
