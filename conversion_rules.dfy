/**
 * The pure rules of ConversionManager: which beatmap sets and skins are
 * converted, where their files go, the folder-name sanitiser, the skin-name
 * unwrapping, the skin.ini `Name:` scan and the merge of collections by name.
 */
module ConversionRules {
  import opened Wrappers
  import opened Text
  import Paths

  /** A file of a lazer beatmap set or skin: its name there and the hash it is stored under. */
  datatype AssetFile = AssetFile(filename: string, hash: string)

  /** The fields of a lazer beatmap set that the conversion reads. */
  datatype BeatmapSet = BeatmapSet(
    protected: bool,
    onlineId: Option<int>,
    artist: string,
    title: string,
    creator: string,
    beatmapHashes: seq<string>,
    files: seq<AssetFile>)

  /** The fields of a lazer skin that the conversion reads. */
  datatype Skin = Skin(name: string, instantiationInfo: string, files: seq<AssetFile>)

  /** A named collection of beatmap hashes. */
  datatype Collection = Collection(name: string, hashes: seq<string>)

  /** A link or copy to attempt: where the file is, where it goes. */
  datatype Placement = Placement(source: string, destination: string)

  // ---------------------------------------------------------------- beatmaps

  /** The hashes of a lazer set that the stable index does not know (the `toConvert` filter). */
  function ToConvert(hashes: seq<string>, stable: set<string>): (r: seq<string>)
    ensures forall i | 0 <= i < |r| :: r[i] !in stable && r[i] in hashes
    ensures forall i | 0 <= i < |hashes| :: hashes[i] in stable || hashes[i] in r
  {
    if hashes == [] then []
    else (if hashes[0] in stable then [] else [hashes[0]]) + ToConvert(hashes[1..], stable)
  }

  /** A beatmap set is converted when it is not protected and has something to convert. */
  predicate Selected(s: BeatmapSet, stable: set<string>) {
    !s.protected && |ToConvert(s.beatmapHashes, stable)| != 0
  }

  /** Selection holds exactly for unprotected sets with some hash missing from the stable index. */
  lemma SelectedIff(s: BeatmapSet, stable: set<string>)
    ensures Selected(s, stable) <==>
      !s.protected && exists i | 0 <= i < |s.beatmapHashes| :: s.beatmapHashes[i] !in stable
  {
    var r := ToConvert(s.beatmapHashes, stable);
    if |r| != 0 {
      assert r[0] in s.beatmapHashes;
    }
  }

  /** `"{OnlineID} "` for a positive online id, nothing otherwise (a missing id compares false). */
  function IdPrefix(onlineId: Option<int>): string {
    if onlineId.Some? && onlineId.value > 0 then NatToString(onlineId.value) + " " else ""
  }

  /** Each character of `invalid` replaced by '_' (the Replace loop of SanitizePath). */
  function ReplaceInvalid(path: string, invalid: set<char>): (r: string)
    ensures |r| == |path|
    ensures forall i | 0 <= i < |path| :: r[i] == if path[i] in invalid then '_' else path[i]
  {
    if path == [] then [] else [if path[0] in invalid then '_' else path[0]] + ReplaceInvalid(path[1..], invalid)
  }

  /** SanitizePath: invalid file-name characters become '_', then every '.' is deleted. */
  function Sanitized(path: string, invalid: set<char>): string {
    Remove(ReplaceInvalid(path, invalid), '.')
  }

  /** The folder a beatmap set is placed in under the stable Songs directory. */
  function FolderName(s: BeatmapSet, invalid: set<char>): string {
    Sanitized(IdPrefix(s.onlineId) + s.artist + " - " + s.title, invalid)
  }

  lemma {:induction false} RemoveKeeps(s: string, c: char, d: char)
    requires d != c
    ensures d in Remove(s, c) <==> d in s
    decreases |s|
  {
    if s != [] {
      RemoveKeeps(s[1..], c, d);
      assert s == [s[0]] + s[1..];
    }
  }

  /** A sanitised name holds no '.', and no invalid character unless '_' itself is one. */
  lemma SanitizedClean(path: string, invalid: set<char>)
    ensures '.' !in Sanitized(path, invalid)
    ensures '_' !in invalid ==> forall c | c in invalid :: c !in Sanitized(path, invalid)
  {
    if '_' !in invalid {
      forall c | c in invalid
        ensures c !in Sanitized(path, invalid)
      {
        var m := ReplaceInvalid(path, invalid);
        if c != '.' {
          RemoveKeeps(m, '.', c);
        }
      }
    }
  }

  lemma {:induction false} RemoveIdentity(s: string, c: char)
    requires c !in s
    ensures Remove(s, c) == s
    decreases |s|
  {
    if s != [] {
      RemoveIdentity(s[1..], c);
      assert s == [s[0]] + s[1..];
    }
  }

  /** Sanitising a sanitised name changes nothing. */
  lemma SanitizedIdempotent(path: string, invalid: set<char>)
    ensures Sanitized(Sanitized(path, invalid), invalid) == Sanitized(path, invalid)
  {
    var once := Sanitized(path, invalid);
    var m := ReplaceInvalid(once, invalid);
    SanitizedClean(path, invalid);
    forall i | 0 <= i < |once|
      ensures m[i] == once[i]
    {
      if once[i] in invalid {
        CharOfSanitized(path, invalid, once[i]);
      }
    }
    assert m == once;
    RemoveIdentity(once, '.');
  }

  /** A character in a sanitised name that is invalid can only be '_'. */
  lemma CharOfSanitized(path: string, invalid: set<char>, c: char)
    requires c in Sanitized(path, invalid) && c in invalid
    ensures c == '_'
  {
    var m := ReplaceInvalid(path, invalid);
    if c != '.' {
      RemoveKeeps(m, '.', c);
    }
  }

  /** Where lazer stores a file: `files/h[0:1]/h[0:2]/h` under its data directory. A hash shorter
      than two characters makes the range index throw. */
  function AssetPath(lazerPath: string, hash: string): (r: Result<string>)
    ensures r.Ok? <==> |hash| >= 2
    ensures r.Err? ==> r.error == ArgumentOutOfRange
  {
    if |hash| < 2 then Err(ArgumentOutOfRange)
    else Ok(Paths.Combine4(Paths.Combine(lazerPath, "files"), hash[..1], hash[..2], hash))
  }

  /** The store layout `files/h[0]/h[0..2]/h` under lazer's data directory, for a data directory path not
      ending in a separator and a hash without one (lazer's hashes are hexadecimal). */
  lemma AssetPathLayout(lazerPath: string, hash: string)
    requires |lazerPath| > 0 && lazerPath[|lazerPath| - 1] != Paths.SEPARATOR
    requires |hash| >= 2 && Paths.SEPARATOR !in hash
    ensures AssetPath(lazerPath, hash) == Ok(lazerPath + "/" + "files" + "/" + hash[..1] + "/" + hash[..2] + "/" + hash)
  {
    Paths.CombineJoins(lazerPath, "files");
    var files := lazerPath + "/" + "files";
    assert files[|files| - 1] == 's';
    assert hash[0] in hash && hash[1] in hash;
    Paths.Combine4Joins(files, hash[..1], hash[..2], hash);
  }

  // ---------------------------------------------------------------- skins

  /** The only kind of lazer skin that is converted. */
  const LEGACY_SKIN: string := "osu.Game.Skinning.LegacySkin, osu.Game"

  /** `"{ini} [{inner}]"`, the name lazer gives a skin whose name differs from its ini name. */
  function Wrapped(ini: string, inner: string): string {
    ini + " [" + inner + "]"
  }

  /** ExtractSkinName: undoes the `"{ini} [{inner}]"` wrapper; every other name is kept. */
  function ExtractSkinName(skinName: string, iniName: Option<string>): (r: string)
  {
    if iniName.None? then skinName
    else if skinName == iniName.value then iniName.value
    else
      var prefix := iniName.value + " [";
      if StartsWith(skinName, prefix) && EndsWith(skinName, ']') then
        // The prefix ends in '[' and the name in ']', so the name is longer than the prefix.
        assert skinName[|prefix| - 1] == '[';
        skinName[|prefix|..|skinName| - 1]
      else skinName
  }

  /** The wrapper is undone. */
  lemma ExtractWrapped(ini: string, inner: string)
    ensures ExtractSkinName(Wrapped(ini, inner), Some(ini)) == inner
  {
    var name := Wrapped(ini, inner);
    var prefix := ini + " [";
    assert name == prefix + inner + "]";
    assert name[..|prefix|] == prefix;
  }

  /** Anything else is kept: the result is the name itself unless the name is a wrapper of it. */
  lemma ExtractOtherwise(skinName: string, iniName: Option<string>)
    ensures var r := ExtractSkinName(skinName, iniName);
      r == skinName || (iniName.Some? && skinName == Wrapped(iniName.value, r))
  {
    var r := ExtractSkinName(skinName, iniName);
    if r != skinName {
      var prefix := iniName.value + " [";
      assert skinName == skinName[..|prefix|] + r + [skinName[|skinName| - 1]];
    }
  }

  /** The section state after a trimmed skin.ini line: `[General]` opens the section, any other
      bracketed header closes it, other lines leave it as it was. */
  function SectionAfter(inGeneral: bool, trimmed: string): bool {
    if trimmed == "[General]" then true
    else if StartsWith(trimmed, "[") && EndsWith(trimmed, ']') then false
    else inGeneral
  }

  /** A trimmed line that names the skin when met inside `[General]`. */
  predicate NameLine(inGeneral: bool, trimmed: string) {
    trimmed != "[General]" && !(StartsWith(trimmed, "[") && EndsWith(trimmed, ']')) &&
    inGeneral && StartsWith(trimmed, "Name:")
  }

  /** The trimmed text after `Name:`. */
  function NameValue(trimmed: string): string
    requires StartsWith(trimmed, "Name:")
  {
    Trim(trimmed[|"Name:"|..])
  }

  /** Every line trimmed, as the scan sees them. */
  function TrimAll(lines: seq<string>): (r: seq<string>)
    ensures |r| == |lines| && forall i | 0 <= i < |lines| :: r[i] == Trim(lines[i])
  {
    seq(|lines|, i requires 0 <= i < |lines| => Trim(lines[i]))
  }

  /** The section state after the trimmed lines `ts`, starting from `inGeneral`. */
  function SectionAfterLines(inGeneral: bool, ts: seq<string>): bool
    decreases |ts|
  {
    if ts == [] then inGeneral else SectionAfterLines(SectionAfter(inGeneral, ts[0]), ts[1..])
  }

  /** The `Name:` value of the first naming line among the trimmed lines `ts`, read from `inGeneral`
      (GetSkinNameFromIni's loop). */
  function IniName(ts: seq<string>, inGeneral: bool): Option<string>
    decreases |ts|
  {
    if ts == [] then None
    else if NameLine(inGeneral, ts[0]) then Some(NameValue(ts[0]))
    else IniName(ts[1..], SectionAfter(inGeneral, ts[0]))
  }

  /** The scan at line `i`: a naming line ends it, any other line moves the section state on. */
  lemma IniNameStep(ts: seq<string>, i: int, inGeneral: bool)
    requires 0 <= i < |ts|
    ensures IniName(ts[i..], inGeneral) ==
      if NameLine(inGeneral, ts[i]) then Some(NameValue(ts[i])) else IniName(ts[i + 1..], SectionAfter(inGeneral, ts[i]))
  {
    assert ts[i..][0] == ts[i] && ts[i..][1..] == ts[i + 1..];
  }

  /** Line `i` names the skin in the section state the lines before it leave. */
  predicate NamesAt(ts: seq<string>, inGeneral: bool, i: int)
    requires 0 <= i < |ts|
  {
    NameLine(SectionAfterLines(inGeneral, ts[..i]), ts[i])
  }

  lemma NamesAtShift(ts: seq<string>, inGeneral: bool, i: int)
    requires 1 <= i < |ts|
    ensures NamesAt(ts, inGeneral, i) == NamesAt(ts[1..], SectionAfter(inGeneral, ts[0]), i - 1)
  {
    assert ts[..i][1..] == ts[1..][..i - 1];
    assert ts[..i][0] == ts[0];
  }

  /** Line `i` is the first that names the skin. */
  predicate FirstNameAt(ts: seq<string>, inGeneral: bool, i: int)
    requires 0 <= i < |ts|
  {
    NamesAt(ts, inGeneral, i) && forall j | 0 <= j < i :: !NamesAt(ts, inGeneral, j)
  }

  lemma FirstNameShift(ts: seq<string>, inGeneral: bool, i: int)
    requires 1 <= i < |ts| && !NamesAt(ts, inGeneral, 0)
    ensures FirstNameAt(ts, inGeneral, i) == FirstNameAt(ts[1..], SectionAfter(inGeneral, ts[0]), i - 1)
  {
    var next := SectionAfter(inGeneral, ts[0]);
    NamesAtShift(ts, inGeneral, i);
    forall j | 1 <= j < i
      ensures NamesAt(ts, inGeneral, j) == NamesAt(ts[1..], next, j - 1)
    {
      NamesAtShift(ts, inGeneral, j);
    }
    if FirstNameAt(ts[1..], next, i - 1) {
      forall j | 0 <= j < i
        ensures !NamesAt(ts, inGeneral, j)
      {
        if j > 0 {
          assert !NamesAt(ts[1..], next, j - 1);
        }
      }
    }
    if FirstNameAt(ts, inGeneral, i) {
      forall j | 0 <= j < i - 1
        ensures !NamesAt(ts[1..], next, j)
      {
        assert !NamesAt(ts, inGeneral, j + 1);
      }
    }
  }

  /** A first naming line after a line that does not name the skin is the first naming line overall. */
  lemma FirstNameAfter(ts: seq<string>, inGeneral: bool, k: int)
    requires 0 <= k < |ts| - 1 && !NameLine(inGeneral, ts[0])
    requires FirstNameAt(ts[1..], SectionAfter(inGeneral, ts[0]), k)
    ensures FirstNameAt(ts, inGeneral, k + 1)
  {
    assert ts[..0] == [];
    FirstNameShift(ts, inGeneral, k + 1);
  }

  /** A value found is that of the first naming line. */
  lemma {:induction false} IniNameFound(ts: seq<string>, inGeneral: bool)
    requires IniName(ts, inGeneral).Some?
    ensures exists i | 0 <= i < |ts| :: FirstNameAt(ts, inGeneral, i) && IniName(ts, inGeneral).value == NameValue(ts[i])
    decreases |ts|
  {
    if NameLine(inGeneral, ts[0]) {
      assert ts[..0] == [];
      assert FirstNameAt(ts, inGeneral, 0);
    } else {
      var next := SectionAfter(inGeneral, ts[0]);
      IniNameFound(ts[1..], next);
      var k :| 0 <= k < |ts[1..]| && FirstNameAt(ts[1..], next, k) && IniName(ts[1..], next).value == NameValue(ts[1..][k]);
      FirstNameAfter(ts, inGeneral, k);
      assert ts[1..][k] == ts[k + 1];
    }
  }

  /** Any naming line is found: IniName is absent only when no line names the skin. */
  lemma {:induction false} IniNameComplete(ts: seq<string>, inGeneral: bool, i: int)
    requires 0 <= i < |ts| && NamesAt(ts, inGeneral, i)
    ensures IniName(ts, inGeneral).Some?
    decreases i
  {
    if !NameLine(inGeneral, ts[0]) && i > 0 {
      NamesAtShift(ts, inGeneral, i);
      IniNameComplete(ts[1..], SectionAfter(inGeneral, ts[0]), i - 1);
    }
  }

  // ---------------------------------------------------------------- collections

  function HashSet(hashes: seq<string>): (r: set<string>)
    ensures forall h :: h in r <==> h in hashes
  {
    set h | h in hashes
  }

  /** One collection grouped into the map: its hashes are added to those of its name. */
  function AddCollection(acc: map<string, set<string>>, c: Collection): map<string, set<string>> {
    acc[c.name := (if c.name in acc then acc[c.name] else {}) + HashSet(c.hashes)]
  }

  /** The GroupBy/ToDictionary merge: collections grouped by name, their hash sets united. */
  function MergeInto(acc: map<string, set<string>>, cs: seq<Collection>): map<string, set<string>>
    decreases |cs|
  {
    if cs == [] then acc else MergeInto(AddCollection(acc, cs[0]), cs[1..])
  }

  function Merge(cs: seq<Collection>): map<string, set<string>> {
    MergeInto(map[], cs)
  }

  /** The hashes of the collections of `cs` named `name`. */
  function NamedHashes(cs: seq<Collection>, name: string): (r: set<string>)
    decreases |cs|
  {
    if cs == [] then {}
    else (if cs[0].name == name then HashSet(cs[0].hashes) else {}) + NamedHashes(cs[1..], name)
  }

  lemma {:induction false} NamedHashesSpec(cs: seq<Collection>, name: string, h: string)
    ensures h in NamedHashes(cs, name) <==>
      exists i | 0 <= i < |cs| :: cs[i].name == name && h in cs[i].hashes
    decreases |cs|
  {
    if cs != [] {
      NamedHashesSpec(cs[1..], name, h);
      if exists i | 0 <= i < |cs| :: cs[i].name == name && h in cs[i].hashes {
        var i :| 0 <= i < |cs| && cs[i].name == name && h in cs[i].hashes;
        if i > 0 {
          assert cs[1..][i - 1] == cs[i];
        }
      }
    }
  }

  /** The merge holds one key per name met, mapped to the union of the hashes of that name. */
  lemma {:induction false} MergeIntoSpec(acc: map<string, set<string>>, cs: seq<Collection>)
    ensures forall k :: k in MergeInto(acc, cs) <==>
      k in acc || exists i | 0 <= i < |cs| :: cs[i].name == k
    ensures forall k | k in MergeInto(acc, cs) ::
      MergeInto(acc, cs)[k] == (if k in acc then acc[k] else {}) + NamedHashes(cs, k)
    decreases |cs|
  {
    if cs != [] {
      var acc' := AddCollection(acc, cs[0]);
      MergeIntoSpec(acc', cs[1..]);
      forall k
        ensures k in MergeInto(acc, cs) <==> k in acc || exists i | 0 <= i < |cs| :: cs[i].name == k
      {
        if exists i | 0 <= i < |cs[1..]| :: cs[1..][i].name == k {
          var i :| 0 <= i < |cs[1..]| && cs[1..][i].name == k;
          assert cs[i + 1].name == k;
        }
        if exists i | 0 <= i < |cs| :: cs[i].name == k {
          var i :| 0 <= i < |cs| && cs[i].name == k;
          if i > 0 {
            assert cs[1..][i - 1].name == k;
          }
        }
      }
    }
  }

  /** The merged collections: one entry per distinct name of stable or lazer. */
  lemma MergeKeys(stable: seq<Collection>, lazer: seq<Collection>, name: string)
    ensures name in Merge(stable + lazer) <==>
      (exists i | 0 <= i < |stable| :: stable[i].name == name) ||
      (exists i | 0 <= i < |lazer| :: lazer[i].name == name)
  {
    var cs := stable + lazer;
    MergeIntoSpec(map[], cs);
    if exists i | 0 <= i < |cs| :: cs[i].name == name {
      var i :| 0 <= i < |cs| && cs[i].name == name;
      if i >= |stable| {
        assert lazer[i - |stable|] == cs[i];
      } else {
        assert stable[i] == cs[i];
      }
    }
    if exists i | 0 <= i < |lazer| :: lazer[i].name == name {
      var i :| 0 <= i < |lazer| && lazer[i].name == name;
      assert cs[|stable| + i] == lazer[i];
    }
    if exists i | 0 <= i < |stable| :: stable[i].name == name {
      var i :| 0 <= i < |stable| && stable[i].name == name;
      assert cs[i] == stable[i];
    }
  }

  /** Each entry's hashes are those of every collection of that name, stable or lazer; so every
      stable hash is kept. */
  lemma MergeHashes(stable: seq<Collection>, lazer: seq<Collection>, name: string, h: string)
    requires name in Merge(stable + lazer)
    ensures h in Merge(stable + lazer)[name] <==>
      (exists i | 0 <= i < |stable| :: stable[i].name == name && h in stable[i].hashes) ||
      (exists i | 0 <= i < |lazer| :: lazer[i].name == name && h in lazer[i].hashes)
  {
    var cs := stable + lazer;
    MergeIntoSpec(map[], cs);
    NamedHashesSpec(cs, name, h);
    if exists i | 0 <= i < |cs| :: cs[i].name == name && h in cs[i].hashes {
      var i :| 0 <= i < |cs| && cs[i].name == name && h in cs[i].hashes;
      if i >= |stable| {
        assert lazer[i - |stable|] == cs[i];
      } else {
        assert stable[i] == cs[i];
      }
    }
    if exists i | 0 <= i < |lazer| :: lazer[i].name == name && h in lazer[i].hashes {
      var i :| 0 <= i < |lazer| && lazer[i].name == name && h in lazer[i].hashes;
      assert cs[|stable| + i] == lazer[i];
    }
    if exists i | 0 <= i < |stable| :: stable[i].name == name && h in stable[i].hashes {
      var i :| 0 <= i < |stable| && stable[i].name == name && h in stable[i].hashes;
      assert cs[i] == stable[i];
    }
  }

  /** Merging the same lazer collections into the result a second time changes nothing. */
  lemma MergeIdempotent(stable: seq<Collection>, lazer: seq<Collection>)
    ensures MergeInto(Merge(stable + lazer), lazer) == Merge(stable + lazer)
  {
    var m := Merge(stable + lazer);
    MergeIntoSpec(m, lazer);
    forall k | k in MergeInto(m, lazer)
      ensures k in m && MergeInto(m, lazer)[k] == m[k]
    {
      if exists i | 0 <= i < |lazer| :: lazer[i].name == k {
        MergeKeys(stable, lazer, k);
      }
      forall h | h in NamedHashes(lazer, k)
        ensures h in m[k]
      {
        NamedHashesSpec(lazer, k, h);
        MergeHashes(stable, lazer, k, h);
      }
    }
    assert MergeInto(m, lazer).Keys == m.Keys;
  }
}
