/** The errors the core can return. Each variant names the Go error it stands for. */
module Errors {

  /** The two ways strconv.Atoi can fail. */
  datatype NumErrorKind = InvalidSyntax | ValueOutOfRange

  datatype Error =
    /** strconv.Atoi: parsing "<num>": invalid syntax / value out of range */
    | NumError(num: string, kind: NumErrorKind)
    /** A Go runtime panic: index out of range (parseVersion, PatchSubmodule). */
    | IndexOutOfRange
    /** An error reported by the file system or YAML collaborator, passed through as is. */
    | LoaderError(message: string)
    /** Hotfix not found: "<hotfix>" */
    | HotfixNotFound(hotfix: string)
    /** Missing ref for new submodule: "<path>" */
    | MissingSubmoduleRef(path: string)
    /** Missing starting version "<version>" in starting-versions.yml */
    | MissingStartingVersion(version: string)
    /** Branch "<name>" already exists. Please delete it before trying again */
    | BranchExists(name: string)
    /** Whatever error an external command or a repository call reports. */
    | CommandError(message: string)
    /** could not determine `git` version */
    | GitVersionUnknown
    /** could not determine `git` version: <cause> */
    | GitVersionUnparsable(cause: Error)
    /** knit requires a version of git >= 2.9.0 */
    | GitTooOld
}
