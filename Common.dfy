/**
 * Values shared by both scripts: optional results, paths as component
 * sequences, the record of one finished external tool run, and how a run
 * of a script's `main` ends.
 */
module Common {

  datatype Option<+T> = None | Some(value: T)

  /** An absolute path, as the sequence of its components below `/`. */
  type Path = seq<string>

  /** `Path.name`: the last component, or "" for the root. */
  function Name(p: Path): string {
    if p == [] then "" else p[|p| - 1]
  }

  /** `Path.parent`: the root is its own parent. */
  function Parent(p: Path): Path {
    if p == [] then [] else p[..|p| - 1]
  }

  /**
   * What `subprocess.run(..., capture_output=True, text=True)` hands back
   * once the child has exited: its exit status and both captured streams.
   */
  datatype ToolRun = ToolRun(status: int, stdout: string, stderr: string)

  /**
   * How one call of a script's `main` ends: it returns an exit code, or an
   * OS error (a failed `open` or `mkdir`) propagates out of it.
   */
  datatype Exit = Returned(code: int) | Raised
}
