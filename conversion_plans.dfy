/**
 * What ConvertBeatmaps and ConvertSkins do, as values: the links or copies
 * they attempt, in order, the skin directories they create, and the
 * exception that ends them early. A hash shorter than two characters is
 * sliced outside the try block, so it ends the whole conversion; a failed
 * link or copy is caught and does not.
 */
module ConversionPlans {
  import opened Wrappers
  import opened Text
  import opened ConversionRules
  import Bytes
  import BeatmapIndex
  import Paths

  /** A conversion's effects, in order, and the exception that ended it, if any. */
  datatype Run = Run(placements: seq<Placement>, created: seq<string>, error: Option<Error>)

  /** `a`, which ended normally, followed by `b`. */
  function Join(a: Run, b: Run): (r: Run)
    ensures r.error == b.error
  {
    Run(a.placements + b.placements, a.created + b.created, b.error)
  }

  /** Where a stored file goes: from lazer's store into `dir`, under its own file name. */
  function FilePlacement(lazerPath: string, dir: string, f: AssetFile): Placement
    requires |f.hash| >= 2
  {
    Placement(AssetPath(lazerPath, f.hash).value, Paths.Combine(dir, f.filename))
  }

  /** The file loop of ConvertBeatmaps and ConvertSkins: every file is placed in `dir`. */
  function PlaceFiles(lazerPath: string, dir: string, files: seq<AssetFile>): Run
    decreases |files|
  {
    if files == [] then Run([], [], None)
    else
      match AssetPath(lazerPath, files[0].hash)
      case Err(e) => Run([], [], Some(e))
      case Ok(source) =>
        var rest := PlaceFiles(lazerPath, dir, files[1..]);
        Run([Placement(source, Paths.Combine(dir, files[0].filename))] + rest.placements, rest.created, rest.error)
  }

  /** A file whose hash can be sliced is placed before the rest. */
  lemma PlaceFilesStep(lazerPath: string, dir: string, files: seq<AssetFile>)
    requires files != [] && |files[0].hash| >= 2
    ensures var r, rest := PlaceFiles(lazerPath, dir, files), PlaceFiles(lazerPath, dir, files[1..]);
      r.placements == [FilePlacement(lazerPath, dir, files[0])] + rest.placements &&
      r.created == rest.created && r.error == rest.error
  {
  }

  /** An element of a sequence's tail is the next element of the sequence. */
  lemma TailAt<T>(xs: seq<T>, i: nat)
    requires i + 1 < |xs|
    ensures xs[1..][i] == xs[i + 1]
  {
  }

  /** The element after the head of a sequence built by prepending. */
  lemma ConsAt<T>(x: T, xs: seq<T>, i: nat)
    requires 1 <= i <= |xs|
    ensures ([x] + xs)[i] == xs[i - 1]
  {
  }

  /** The files are placed in order up to the first one whose hash is too short, which ends the run. */
  lemma {:induction false} PlaceFilesSpec(lazerPath: string, dir: string, files: seq<AssetFile>)
    ensures var r := PlaceFiles(lazerPath, dir, files);
      var k := |r.placements|;
      r.created == [] && k <= |files| &&
      (forall i | 0 <= i < k :: |files[i].hash| >= 2 && r.placements[i] == FilePlacement(lazerPath, dir, files[i])) &&
      (r.error.None? ==> k == |files|) &&
      (r.error.Some? ==> k < |files| && |files[k].hash| < 2 && r.error.value == ArgumentOutOfRange)
    decreases |files|
  {
    if files != [] && |files[0].hash| >= 2 {
      PlaceFilesSpec(lazerPath, dir, files[1..]);
      PlaceFilesStep(lazerPath, dir, files);
      var r := PlaceFiles(lazerPath, dir, files);
      var rest := PlaceFiles(lazerPath, dir, files[1..]);
      forall i | 1 <= i < |r.placements|
        ensures |files[i].hash| >= 2 && r.placements[i] == FilePlacement(lazerPath, dir, files[i])
      {
        ConsAt(FilePlacement(lazerPath, dir, files[0]), rest.placements, i);
        assert files[1..][i - 1] == files[i];
      }
      if r.error.Some? {
        assert files[1..][|rest.placements|] == files[|r.placements|];
      }
    }
  }

  // ---------------------------------------------------------------- beatmaps

  /** The folder a selected beatmap set's files go to under the stable Songs directory. */
  function SetFolder(songsPath: string, s: BeatmapSet, invalid: set<char>): string {
    Paths.Combine(songsPath, FolderName(s, invalid))
  }

  /** One pass of ConvertBeatmaps' loop: a set that is not selected is skipped, the files of a
      selected one are placed in its folder. */
  function BeatmapStep(s: BeatmapSet, stable: set<string>, lazerPath: string, songsPath: string,
                       invalid: set<char>): Run
  {
    if !Selected(s, stable) then Run([], [], None) else PlaceFiles(lazerPath, SetFolder(songsPath, s, invalid), s.files)
  }

  /** ConvertBeatmaps' loop over the lazer beatmap sets, given the hashes of the stable index. */
  function BeatmapsPlan(sets: seq<BeatmapSet>, stable: set<string>, lazerPath: string, songsPath: string,
                        invalid: set<char>): Run
    decreases |sets|
  {
    if sets == [] then Run([], [], None)
    else
      var r := BeatmapStep(sets[0], stable, lazerPath, songsPath, invalid);
      if r.error.Some? then r else Join(r, BeatmapsPlan(sets[1..], stable, lazerPath, songsPath, invalid))
  }

  /** File `j` of set `i` is one ConvertBeatmaps places: the set is selected and the file's hash can be sliced. */
  predicate BeatmapFile(sets: seq<BeatmapSet>, stable: set<string>, i: int, j: int) {
    0 <= i < |sets| && Selected(sets[i], stable) && 0 <= j < |sets[i].files| && |sets[i].files[j].hash| >= 2
  }

  /** A placement of the loop comes from the first set, when it is selected, or from the loop over the rest. */
  lemma PlanPlacement(sets: seq<BeatmapSet>, stable: set<string>, lazerPath: string, songsPath: string,
                      invalid: set<char>, p: Placement)
    requires p in BeatmapsPlan(sets, stable, lazerPath, songsPath, invalid).placements
    ensures sets != []
    ensures (Selected(sets[0], stable) &&
             p in PlaceFiles(lazerPath, SetFolder(songsPath, sets[0], invalid), sets[0].files).placements) ||
            p in BeatmapsPlan(sets[1..], stable, lazerPath, songsPath, invalid).placements
  {
  }

  /** Every placement is a file of a selected set, linked into that set's folder; nothing is placed for a
      protected set or one whose beatmaps the stable index already has. */
  lemma {:induction false} BeatmapsPlanSound(sets: seq<BeatmapSet>, stable: set<string>, lazerPath: string,
                                             songsPath: string, invalid: set<char>, p: Placement)
    requires p in BeatmapsPlan(sets, stable, lazerPath, songsPath, invalid).placements
    ensures exists i, j | BeatmapFile(sets, stable, i, j) ::
      p == FilePlacement(lazerPath, SetFolder(songsPath, sets[i], invalid), sets[i].files[j])
    decreases |sets|
  {
    var dir := SetFolder(songsPath, sets[0], invalid);
    var first := PlaceFiles(lazerPath, dir, sets[0].files);
    var rest := BeatmapsPlan(sets[1..], stable, lazerPath, songsPath, invalid);
    PlanPlacement(sets, stable, lazerPath, songsPath, invalid, p);
    if Selected(sets[0], stable) && p in first.placements {
      PlaceFilesSpec(lazerPath, dir, sets[0].files);
      var j :| 0 <= j < |first.placements| && first.placements[j] == p;
      assert BeatmapFile(sets, stable, 0, j);
    } else {
      assert p in rest.placements;
      BeatmapsPlanSound(sets[1..], stable, lazerPath, songsPath, invalid, p);
      var i, j :| BeatmapFile(sets[1..], stable, i, j) &&
        p == FilePlacement(lazerPath, SetFolder(songsPath, sets[1..][i], invalid), sets[1..][i].files[j]);
      TailAt(sets, i);
      assert BeatmapFile(sets, stable, i + 1, j);
    }
  }

  /** A run that ends normally places every file of every selected set; one that ends early was ended by a
      selected set's file whose hash is too short. */
  lemma {:induction false} BeatmapsPlanComplete(sets: seq<BeatmapSet>, stable: set<string>, lazerPath: string,
                                                songsPath: string, invalid: set<char>)
    ensures var r := BeatmapsPlan(sets, stable, lazerPath, songsPath, invalid);
      (r.error.None? ==>
        forall i, j | 0 <= i < |sets| && Selected(sets[i], stable) && 0 <= j < |sets[i].files| ::
          BeatmapFile(sets, stable, i, j) &&
          FilePlacement(lazerPath, SetFolder(songsPath, sets[i], invalid), sets[i].files[j]) in r.placements) &&
      (r.error.Some? ==>
        r.error.value == ArgumentOutOfRange &&
        exists i, j | 0 <= i < |sets| && Selected(sets[i], stable) && 0 <= j < |sets[i].files| ::
          |sets[i].files[j].hash| < 2)
    decreases |sets|
  {
    if sets != [] {
      var r := BeatmapsPlan(sets, stable, lazerPath, songsPath, invalid);
      var rest := BeatmapsPlan(sets[1..], stable, lazerPath, songsPath, invalid);
      BeatmapsPlanComplete(sets[1..], stable, lazerPath, songsPath, invalid);
      var dir := SetFolder(songsPath, sets[0], invalid);
      var first := PlaceFiles(lazerPath, dir, sets[0].files);
      PlaceFilesSpec(lazerPath, dir, sets[0].files);
      if Selected(sets[0], stable) && first.error.Some? {
        var k := |first.placements|;
        assert |sets[0].files[k].hash| < 2;
      } else if r.error.None? {
        forall i, j | 0 <= i < |sets| && Selected(sets[i], stable) && 0 <= j < |sets[i].files|
          ensures BeatmapFile(sets, stable, i, j) &&
            FilePlacement(lazerPath, SetFolder(songsPath, sets[i], invalid), sets[i].files[j]) in r.placements
        {
          if i == 0 {
            assert first.placements[j] == FilePlacement(lazerPath, dir, sets[0].files[j]);
          } else {
            assert sets[1..][i - 1] == sets[i];
          }
        }
      } else {
        var i, j :| 0 <= i < |sets[1..]| && Selected(sets[1..][i], stable) && 0 <= j < |sets[1..][i].files| &&
          |sets[1..][i].files[j].hash| < 2;
        assert sets[1..][i] == sets[i + 1];
      }
    }
  }

  // ---------------------------------------------------------------- skins

  /** The skin's first file named skin.ini, ignoring case (the FirstOrDefault of GetSkinNameFromIni). */
  function IniFile(files: seq<AssetFile>): (r: Option<AssetFile>)
    decreases |files|
  {
    if files == [] then None
    else if EqualsIgnoreCase(files[0].filename, "skin.ini") then Some(files[0])
    else IniFile(files[1..])
  }

  /** IniFile yields the first file named skin.ini, and nothing when there is none. */
  lemma {:induction false} IniFileFirst(files: seq<AssetFile>)
    ensures IniFile(files).None? <==> forall i | 0 <= i < |files| :: !EqualsIgnoreCase(files[i].filename, "skin.ini")
    ensures IniFile(files).Some? ==> exists k | 0 <= k < |files| ::
      IniFile(files).value == files[k] && EqualsIgnoreCase(files[k].filename, "skin.ini") &&
      forall i | 0 <= i < k :: !EqualsIgnoreCase(files[i].filename, "skin.ini")
    decreases |files|
  {
    if files != [] && !EqualsIgnoreCase(files[0].filename, "skin.ini") {
      IniFileFirst(files[1..]);
      if IniFile(files).Some? {
        var k :| 0 <= k < |files[1..]| && IniFile(files[1..]).value == files[1..][k] &&
          EqualsIgnoreCase(files[1..][k].filename, "skin.ini") &&
          forall i | 0 <= i < k :: !EqualsIgnoreCase(files[1..][i].filename, "skin.ini");
        assert files[1..][k] == files[k + 1];
        forall i | 0 <= i < k + 1
          ensures !EqualsIgnoreCase(files[i].filename, "skin.ini")
        {
          if i > 0 {
            assert files[1..][i - 1] == files[i];
          }
        }
      } else {
        forall i | 0 <= i < |files|
          ensures !EqualsIgnoreCase(files[i].filename, "skin.ini")
        {
          if i > 0 {
            assert files[1..][i - 1] == files[i];
          }
        }
      }
    }
  }

  /** GetSkinNameFromIni, given the lines of the files in lazer's store: no skin.ini, or a skin.ini
      missing from the store, gives no name; a skin.ini whose hash is too short to slice throws. */
  function SkinIniName(k: Skin, lazerPath: string, texts: map<string, seq<string>>): Result<Option<string>> {
    match IniFile(k.files)
    case None => Ok(None)
    case Some(f) =>
      var path :- AssetPath(lazerPath, f.hash);
      if path !in texts then Ok(None) else Ok(IniName(TrimAll(texts[path]), false))
  }

  /** The folder name a legacy skin gets: its lazer name with the ini-name wrapper undone. */
  function SkinFolderName(k: Skin, lazerPath: string, texts: map<string, seq<string>>): string
    requires SkinIniName(k, lazerPath, texts).Ok?
  {
    ExtractSkinName(k.name, SkinIniName(k, lazerPath, texts).value)
  }

  /** A skin ConvertSkins converts: legacy, and its folder name is not already a stable skin. */
  predicate Converted(k: Skin, existing: set<string>, lazerPath: string, texts: map<string, seq<string>>) {
    k.instantiationInfo == LEGACY_SKIN && SkinIniName(k, lazerPath, texts).Ok? &&
    SkinFolderName(k, lazerPath, texts) !in existing
  }

  /** One pass of ConvertSkins' loop: a non-legacy skin, or one whose folder name stable already has,
      is skipped; otherwise its folder is created and its files are placed in it. */
  function SkinStep(k: Skin, existing: set<string>, lazerPath: string, texts: map<string, seq<string>>,
                    skinsDir: string): Run
  {
    if k.instantiationInfo != LEGACY_SKIN then Run([], [], None)
    else
      match SkinIniName(k, lazerPath, texts)
      case Err(e) => Run([], [], Some(e))
      case Ok(ini) =>
        var name := ExtractSkinName(k.name, ini);
        if name in existing then Run([], [], None)
        else
          var dir := Paths.Combine(skinsDir, name);
          var r := PlaceFiles(lazerPath, dir, k.files);
          Run(r.placements, [dir], r.error)
  }

  /** ConvertSkins' loop over the lazer skins, given the names of the stable skin folders. */
  function SkinsPlan(skins: seq<Skin>, existing: set<string>, lazerPath: string, texts: map<string, seq<string>>,
                     skinsDir: string): Run
    decreases |skins|
  {
    if skins == [] then Run([], [], None)
    else
      var r := SkinStep(skins[0], existing, lazerPath, texts, skinsDir);
      if r.error.Some? then r else Join(r, SkinsPlan(skins[1..], existing, lazerPath, texts, skinsDir))
  }

  /** Every directory created is that of a converted skin: legacy, and not already a stable skin. */
  lemma {:induction false} SkinsPlanSound(skins: seq<Skin>, existing: set<string>, lazerPath: string,
                                          texts: map<string, seq<string>>, skinsDir: string, d: string)
    requires d in SkinsPlan(skins, existing, lazerPath, texts, skinsDir).created
    ensures exists i | 0 <= i < |skins| && Converted(skins[i], existing, lazerPath, texts) ::
      d == Paths.Combine(skinsDir, SkinFolderName(skins[i], lazerPath, texts))
    decreases |skins|
  {
    var r := SkinsPlan(skins, existing, lazerPath, texts, skinsDir);
    var rest := SkinsPlan(skins[1..], existing, lazerPath, texts, skinsDir);
    if Converted(skins[0], existing, lazerPath, texts) &&
       d == Paths.Combine(skinsDir, SkinFolderName(skins[0], lazerPath, texts)) {
    } else {
      assert d in rest.created;
      SkinsPlanSound(skins[1..], existing, lazerPath, texts, skinsDir, d);
      var i :| 0 <= i < |skins[1..]| && Converted(skins[1..][i], existing, lazerPath, texts) &&
        d == Paths.Combine(skinsDir, SkinFolderName(skins[1..][i], lazerPath, texts));
      assert skins[1..][i] == skins[i + 1];
    }
  }

  /** A run that ends normally read every legacy skin's ini name, and created the folder of every converted
      skin and placed all of its files there. */
  lemma {:induction false} SkinsPlanComplete(skins: seq<Skin>, existing: set<string>, lazerPath: string,
                                             texts: map<string, seq<string>>, skinsDir: string)
    ensures var r := SkinsPlan(skins, existing, lazerPath, texts, skinsDir);
      r.error.None? ==>
        forall i | 0 <= i < |skins| && skins[i].instantiationInfo == LEGACY_SKIN ::
          SkinIniName(skins[i], lazerPath, texts).Ok? &&
          (Converted(skins[i], existing, lazerPath, texts) ==>
            var dir := Paths.Combine(skinsDir, SkinFolderName(skins[i], lazerPath, texts));
            dir in r.created &&
            forall j | 0 <= j < |skins[i].files| ::
              |skins[i].files[j].hash| >= 2 && FilePlacement(lazerPath, dir, skins[i].files[j]) in r.placements)
    decreases |skins|
  {
    if skins != [] {
      var r := SkinsPlan(skins, existing, lazerPath, texts, skinsDir);
      SkinsPlanComplete(skins[1..], existing, lazerPath, texts, skinsDir);
      if r.error.None? {
        forall i | 0 <= i < |skins| && skins[i].instantiationInfo == LEGACY_SKIN
          ensures SkinIniName(skins[i], lazerPath, texts).Ok? &&
            (Converted(skins[i], existing, lazerPath, texts) ==>
              var dir := Paths.Combine(skinsDir, SkinFolderName(skins[i], lazerPath, texts));
              dir in r.created &&
              forall j | 0 <= j < |skins[i].files| ::
                |skins[i].files[j].hash| >= 2 && FilePlacement(lazerPath, dir, skins[i].files[j]) in r.placements)
        {
          if i == 0 {
            if Converted(skins[0], existing, lazerPath, texts) {
              var dir := Paths.Combine(skinsDir, SkinFolderName(skins[0], lazerPath, texts));
              var first := PlaceFiles(lazerPath, dir, skins[0].files);
              PlaceFilesSpec(lazerPath, dir, skins[0].files);
              forall j | 0 <= j < |skins[0].files|
                ensures |skins[0].files[j].hash| >= 2 && FilePlacement(lazerPath, dir, skins[0].files[j]) in r.placements
              {
                assert first.placements[j] in r.placements;
              }
            }
          } else {
            assert skins[1..][i - 1] == skins[i];
          }
        }
      }
    }
  }

  // ---------------------------------------------------------------- whole conversions

  /** The hashes the stable index lists (the stableHashes set of ConvertBeatmaps). */
  function StableHashes(index: seq<BeatmapIndex.BeatmapInfo>): (r: set<string>)
    ensures forall h :: h in r <==> exists i | 0 <= i < |index| :: index[i].hash == h
  {
    set i | 0 <= i < |index| :: index[i].hash
  }

  /** ConvertBeatmaps, given whether the stable folder exists and the bytes of osu!.db if the file
      exists: a missing folder, a missing file or a malformed index throws before anything is placed. */
  function BeatmapsRun(folderExists: bool, db: Option<seq<Bytes.byte>>, sets: seq<BeatmapSet>, lazerPath: string,
                       songsPath: string, invalid: set<char>): Run
  {
    match db
    case None => Run([], [], Some(if folderExists then FileNotFound else DirectoryNotFound))
    case Some(bytes) =>
      match BeatmapIndex.IndexAt(bytes)
      case Err(e) => Run([], [], Some(e))
      case Ok(index) => BeatmapsPlan(sets, StableHashes(index), lazerPath, songsPath, invalid)
  }

  /** `d` names a directory directly inside `parent`. */
  predicate ChildOf(d: string, parent: string) {
    var name := AfterLast(d, Paths.SEPARATOR);
    name != [] && Paths.Combine(parent, name) == d
  }

  /** A plain name joined under `parent` names a child of `parent`, and its last component is the name. */
  lemma ChildName(parent: string, name: string)
    requires name != [] && Paths.SEPARATOR !in name
    ensures AfterLast(Paths.Combine(parent, name), Paths.SEPARATOR) == name
    ensures ChildOf(Paths.Combine(parent, name), parent)
  {
    var d := Paths.Combine(parent, name);
    if parent == [] {
      assert d == [] + name;
      AfterLastJoined([], name, Paths.SEPARATOR);
    } else if parent[|parent| - 1] == Paths.SEPARATOR {
      AfterLastJoined(parent, name, Paths.SEPARATOR);
    } else {
      AfterLastJoined(parent + [Paths.SEPARATOR], name, Paths.SEPARATOR);
    }
  }

  /** The names of the stable skin folders (the stableSkins set of ConvertSkins): exactly the names of
      the folders directly under `skinsDir`. */
  function StableSkinNames(directories: set<string>, skinsDir: string): (r: set<string>)
    ensures forall name :: name in r <==>
      name != [] && Paths.SEPARATOR !in name && Paths.Combine(skinsDir, name) in directories
  {
    var r := set d | d in directories && ChildOf(d, skinsDir) :: AfterLast(d, Paths.SEPARATOR);
    assert forall name | name != [] && Paths.SEPARATOR !in name && Paths.Combine(skinsDir, name) in directories ::
      name in r by {
      forall name | name != [] && Paths.SEPARATOR !in name && Paths.Combine(skinsDir, name) in directories
        ensures name in r
      {
        ChildName(skinsDir, name);
      }
    }
    r
  }

  /** ConvertSkins, given the directories and the text files on disk: a missing Skins directory throws
      before anything is converted. */
  function SkinsRun(skins: seq<Skin>, directories: set<string>, texts: map<string, seq<string>>,
                    lazerPath: string, skinsDir: string): Run
  {
    if skinsDir !in directories then Run([], [], Some(DirectoryNotFound))
    else SkinsPlan(skins, StableSkinNames(directories, skinsDir), lazerPath, texts, skinsDir)
  }
}
