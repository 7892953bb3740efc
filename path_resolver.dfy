/**
 * PathResolver.GetStableSongsPath: where osu!stable keeps its beatmaps. The
 * per-user config file osu!.<user>.cfg next to the install may carry a
 * BeatmapDirectory setting; the first such line with a usable value decides,
 * and without one the Songs folder of the install is used. The file system
 * is the map of readable text files (their lines), and Path.IsPathRooted and
 * Path.GetFullPath are parameters.
 */
module PathResolver {
  import opened Wrappers
  import opened Text
  import Paths

  const BEATMAP_DIRECTORY: string := "BeatmapDirectory"

  /** The per-user config file of the stable install at `basePath`. */
  function ConfigPath(basePath: string, userName: string): string {
    Paths.Combine(basePath, "osu!." + userName + ".cfg")
  }

  function DefaultSongsPath(basePath: string): string {
    Paths.Combine(basePath, "Songs")
  }

  /** The value of a setting line: the last part of its split at '=', trimmed. */
  function SettingValue(line: string): string {
    Trim(AfterLast(line, '='))
  }

  /** What one config line decides: Some(path) ends the scan, None goes on to the next line. */
  function LineResult(basePath: string, line: string, rooted: string -> bool, fullPath: string -> string): Option<string> {
    if !StartsWithIgnoreCase(line, BEATMAP_DIRECTORY) then None
    else
      var dir := SettingValue(line);
      if rooted(dir) then Some(dir)
      else if dir != [] then Some(fullPath(Paths.Combine(basePath, dir)))
      else None
  }

  /** The foreach over the config lines, `decide` saying what each line decides: the first line that decides, if any. */
  function ScanConfig(lines: seq<string>, decide: string -> Option<string>): (r: Option<string>)
    decreases |lines|
  {
    if lines == [] then None
    else match decide(lines[0])
      case Some(p) => Some(p)
      case None => ScanConfig(lines[1..], decide)
  }

  function GetStableSongsPath(basePath: string, userName: string, texts: map<string, seq<string>>,
                              rooted: string -> bool, fullPath: string -> string): (r: string)
  {
    var configPath := ConfigPath(basePath, userName);
    if configPath !in texts then DefaultSongsPath(basePath)
    else match ScanConfig(texts[configPath], line => LineResult(basePath, line, rooted, fullPath))
      case Some(p) => p
      case None => DefaultSongsPath(basePath)
  }

  /** The scan finds nothing exactly when no line decides, and otherwise it finds what the first deciding line says. */
  lemma {:induction false} ScanFirst(lines: seq<string>, decide: string -> Option<string>)
    ensures var r := ScanConfig(lines, decide);
      (r.None? <==> forall i | 0 <= i < |lines| :: decide(lines[i]).None?) &&
      (r.Some? ==> exists k | 0 <= k < |lines| ::
        r == decide(lines[k]) && forall j | 0 <= j < k :: decide(lines[j]).None?)
    decreases |lines|
  {
    if lines != [] {
      var r := ScanConfig(lines, decide);
      if decide(lines[0]).None? {
        ScanFirst(lines[1..], decide);
        assert forall i | 1 <= i < |lines| :: lines[i] == lines[1..][i - 1];
        if r.Some? {
          var k :| 0 <= k < |lines| - 1 &&
            r == decide(lines[1..][k]) && forall j | 0 <= j < k :: decide(lines[1..][j]).None?;
          assert r == decide(lines[k + 1]);
          forall j | 0 <= j < k + 1
            ensures decide(lines[j]).None?
          {
            if j > 0 {
              assert lines[j] == lines[1..][j - 1];
            }
          }
        }
      } else {
        assert r == decide(lines[0]);
      }
    }
  }

  /**
   * The songs path: the Songs folder of the install when the config file is
   * missing or none of its lines decides; otherwise what the first deciding
   * line says, which is its value verbatim when that is rooted and the full
   * path of the value under the install when it is a non-empty relative one.
   * Since the empty path is not rooted, a line decides exactly when it is a
   * BeatmapDirectory line with a non-empty value: an empty value is skipped.
   */
  lemma SongsPathSpec(basePath: string, userName: string, texts: map<string, seq<string>>,
                      rooted: string -> bool, fullPath: string -> string)
    requires !rooted("")
    ensures forall line :: LineResult(basePath, line, rooted, fullPath).Some? <==>
      StartsWithIgnoreCase(line, BEATMAP_DIRECTORY) && SettingValue(line) != []
    ensures var r := GetStableSongsPath(basePath, userName, texts, rooted, fullPath);
      var configPath := ConfigPath(basePath, userName);
      (configPath !in texts ==> r == DefaultSongsPath(basePath)) &&
      (configPath in texts ==>
        var lines := texts[configPath];
        ((forall i | 0 <= i < |lines| :: LineResult(basePath, lines[i], rooted, fullPath).None?) ==>
          r == DefaultSongsPath(basePath)) &&
        (forall k | 0 <= k < |lines| && LineResult(basePath, lines[k], rooted, fullPath).Some? &&
           (forall j | 0 <= j < k :: LineResult(basePath, lines[j], rooted, fullPath).None?) ::
          var dir := SettingValue(lines[k]);
          StartsWithIgnoreCase(lines[k], BEATMAP_DIRECTORY) &&
          r == if rooted(dir) then dir else fullPath(Paths.Combine(basePath, dir))))
  {
    var configPath := ConfigPath(basePath, userName);
    if configPath in texts {
      var lines := texts[configPath];
      var decide := line => LineResult(basePath, line, rooted, fullPath);
      ScanFirst(lines, decide);
      var s := ScanConfig(lines, decide);
      forall k | 0 <= k < |lines| && LineResult(basePath, lines[k], rooted, fullPath).Some? &&
           (forall j | 0 <= j < k :: LineResult(basePath, lines[j], rooted, fullPath).None?)
        ensures s == LineResult(basePath, lines[k], rooted, fullPath)
      {
        var k' :| 0 <= k' < |lines| &&
          s == LineResult(basePath, lines[k'], rooted, fullPath) &&
          forall j | 0 <= j < k' :: LineResult(basePath, lines[j], rooted, fullPath).None?;
        assert k' == k;
      }
    }
  }

  /** The value read from a line is the text after its last '=' (the whole line when it has none), trimmed. */
  lemma SettingValueAfterLastEquals(line: string)
    ensures exists k | 0 <= k <= |line| ::
      (k == 0 || line[k - 1] == '=') && '=' !in line[k..] && SettingValue(line) == Trim(line[k..])
  {
    var a := AfterLast(line, '=');
    var k := |line| - |a|;
    assert line[k..] == a;
  }
}
