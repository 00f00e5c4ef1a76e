/**
 * Result and error types shared by the components of the share migration.
 */
module Common {
  import opened GoStrings

  datatype Option<+T> = None | Some(value: T)

  /** The errors a share record can fail with. */
  datatype Error =
      /** `strconv.ParseInt` rejected `input` */
    | InvalidNumber(input: string, kind: NumError)
      /** Go's runtime panic for `raw[low:high]` out of `0 <= low <= high <= length` */
    | SliceOutOfRange(low: int, high: int, length: nat)
      /** the `eos` command ran and exited with a non-zero status */
    | ExitStatus(status: int)
      /** the `eos` command could not be run at all */
    | CommandNotRun
      /** the placeholder error the retry loop starts from ("Version not created yet") */
    | VersionNotCreatedYet
      /** preparing or executing the UPDATE, or reading its row count, failed */
    | DatabaseError
      /** the UPDATE did not affect exactly one row */
    | ShareVanished(id: int)

  datatype Result<+T> = Ok(value: T) | Err(error: Error)
}
