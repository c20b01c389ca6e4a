/** What the scanners learn from the machine they run on: the name that
    `platform.system()` reports, and the outcome of running one external
    command (`subprocess.check_output`) whose text the parsers read. */
module Host {

  /** A name `platform.system()` reports other than the three the scanners know. */
  type OtherName = s: string | s != "Windows" && s != "Darwin" && s != "Linux" witness ""

  /** `platform.system()`: the three systems the scanners know, and any other name. */
  datatype System = Windows | Darwin | Linux | OtherSystem(name: OtherName)

  /** The outcome of `subprocess.check_output(...)`: the decoded standard output,
      or the exception it raised. `NotFound` is `FileNotFoundError` (the
      executable is missing); `Raised` is any other exception, with `str(e)`. */
  datatype Command =
    | Ran(output: string)
    | NotFound(message: string)
    | Raised(message: string)
  {
    /** `str(e)` of the exception, for either failure. */
    function ErrorText(): string
      requires !Ran?
    {
      match this
      case NotFound(m) => m
      case Raised(m) => m
    }
  }
}
