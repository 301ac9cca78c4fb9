/**
 * The data shapes of the library interface (include/libcmdargs.h).
 * Strings are sequences of characters; a NULL pointer is None.
 */
module LibCmdArgs {
  import opened Wrappers

  /** The dash that marks an option token (OPTION_FLAG in parser.c and checks.c). */
  const OptionFlag: char := '-'

  /** One command-line option: its raw name, dashes included, and the value it consumed, if any. */
  datatype CmdOpt = CmdOpt(option: string, parameter: Option<string>)

  /**
   * The parse result: the options and the parameters, each in input order.
   * The C structure's counts are the lengths of the two sequences.
   */
  datatype CmdArgs = CmdArgs(options: seq<CmdOpt>, parameters: seq<string>)
}
