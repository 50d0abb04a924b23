/** The slice of the command-line framework that the modelled options read and
    write: the callback an option is bound to, the table renderer stored on the
    context, and the context itself. */
module Cli {
  import opened Wrappers

  /** The callback an option runs once its value is parsed. */
  datatype Callback = PrintAndExit | InitFormatter | UserCallback(name: string)

  /** The function bound to `ctx.print_table`: the CSV writer with a dialect,
      the vertical layout, or the tabulate library with a format name. */
  datatype TableRenderer = CsvRenderer(dialect: string) | VerticalRenderer | TabulateRenderer(tablefmt: string)

  /** The invocation context: its private metadata dictionary (`ctx._meta`),
      whether parsing is resilient (completion mode), the table printer an option
      installed, the lines echoed so far, and whether the invocation has exited. */
  class Context {
    var meta: map<string, Option<string>>
    var resilientParsing: bool
    var printTable: Option<TableRenderer>
    var echoed: seq<string>
    var exited: bool

    constructor (resilientParsing: bool)
      ensures meta == map[] && this.resilientParsing == resilientParsing
      ensures printTable == None && echoed == [] && !exited
    {
      meta := map[];
      this.resilientParsing := resilientParsing;
      printTable := None;
      echoed := [];
      exited := false;
    }
  }

  /** A keyword argument that has a default: left out by the caller, or passed
      with a value (which may itself be `None` where the argument's type says so). */
  datatype Kwarg<T> = Omitted | Passed(value: T)

  /** The value a keyword argument takes: the one passed, even `None`, or else
      the default. This is also `kwargs.setdefault(key, fallback)`. */
  function ValueOr<T>(arg: Kwarg<T>, fallback: T): (r: T)
    ensures arg.Passed? ==> r == arg.value
    ensures arg.Omitted? ==> r == fallback
  {
    match arg
    case Omitted => fallback
    case Passed(v) => v
  }

  /** The type a parameter converts its value with: a choice among names
      (matched with or without regard to case), or another type, named. */
  datatype ParamType = Choice(choices: seq<string>, caseSensitive: bool) | OtherType(name: string)

  /** `if not param_decls: param_decls = fallback`. */
  function ParamDecls(given: seq<string>, fallback: seq<string>): seq<string>
  {
    if given == [] then fallback else given
  }
}
