/**
 * The command line's ParseDbPath: the value following a flag, or the
 * default when the flag is missing, is the last argument, or is followed by
 * another `--` option.
 */
module Program {
  import opened Text

  /** Array.IndexOf: the position of the first occurrence, or -1. */
  function IndexOf(args: seq<string>, x: string): (r: int)
    ensures -1 <= r < |args|
    ensures r == -1 <==> x !in args
    ensures r >= 0 ==> args[r] == x && x !in args[..r]
    decreases |args|
  {
    if args == [] then -1
    else if args[0] == x then 0
    else
      var r := IndexOf(args[1..], x);
      assert args[1..][..if r < 0 then 0 else r] == args[1..1 + if r < 0 then 0 else r];
      if r < 0 then -1 else r + 1
  }

  /**
   * Without the flag the default is used; at its first occurrence, the next
   * argument is the value unless there is none or it starts with "--", in
   * which case the default is used; the result is always the default or one
   * of the arguments.
   */
  function ParseDbPath(args: seq<string>, flag: string, defaultPath: string): (r: string)
    ensures flag !in args ==> r == defaultPath
    ensures forall k | 0 <= k < |args| && args[k] == flag && flag !in args[..k] ::
      r == if k + 1 < |args| && !StartsWith(args[k + 1], "--") then args[k + 1] else defaultPath
    ensures r == defaultPath || r in args
  {
    var idx := IndexOf(args, flag);
    if idx == -1 then defaultPath
    else if idx + 1 >= |args| || StartsWith(args[idx + 1], "--") then defaultPath
    else args[idx + 1]
  }
}
