/**
 * ConversionManager: the three conversions from osu!lazer to osu!stable and
 * the helpers that write collection.db strings and sanitise folder names.
 * Each conversion is proved against its plan in ConversionPlans (beatmaps,
 * skins) or against the merge and the layout of CollectionDb (collections).
 * The file system is a Disk object; lazer's beatmap sets, skins and
 * collections arrive as parameters.
 */
module Conversion {
  import opened Wrappers
  import opened Bytes
  import opened ValueCodec
  import opened BinaryIO
  import opened Text
  import opened ConversionRules
  import opened ConversionPlans
  import opened CollectionDb
  import StableDatabaseReader
  import Utf8
  import Paths

  /** The file system as the conversions see it. */
  class Disk {
    /** The contents of the binary files, by path. */
    var files: map<string, seq<byte>>
    /** The lines of the text files, by path (how File.ReadLines splits a file is not modelled). */
    var texts: map<string, seq<string>>
    /** The directories that exist. */
    var directories: set<string>
    /** Every link or copy attempted, in order. */
    var placements: seq<Placement>

    constructor (files: map<string, seq<byte>>, texts: map<string, seq<string>>, directories: set<string>)
      ensures this.files == files && this.texts == texts && this.directories == directories
      ensures placements == []
    {
      this.files := files;
      this.texts := texts;
      this.directories := directories;
      placements := [];
    }

    /** FileLinker.LinkOrCopy: the attempt is recorded; whether it links, copies or fails is not, and
        neither are the destination folder it creates nor the old destination file it replaces. */
    method LinkOrCopy(source: string, destination: string)
      modifies this
      ensures placements == old(placements) + [Placement(source, destination)]
      ensures files == old(files) && texts == old(texts) && directories == old(directories)
    {
      placements := placements + [Placement(source, destination)];
    }

    /** Directory.CreateDirectory. */
    method CreateDirectory(path: string)
      modifies this
      ensures directories == old(directories) + {path}
      ensures files == old(files) && texts == old(texts) && placements == old(placements)
    {
      directories := directories + {path};
    }

    /** File.Copy with overwrite. */
    method Copy(source: string, destination: string)
      requires source in files
      modifies this
      ensures files == old(files)[destination := old(files)[source]]
      ensures texts == old(texts) && directories == old(directories) && placements == old(placements)
    {
      files := files[destination := files[source]];
    }

    /** File.Create followed by writing `bytes` and closing the stream. */
    method WriteAll(path: string, bytes: seq<byte>)
      modifies this
      ensures files == old(files)[path := bytes]
      ensures texts == old(texts) && directories == old(directories) && placements == old(placements)
    {
      files := files[path := bytes];
    }
  }

  // ---------------------------------------------------------------- collection.db strings

  /** WriteULEB128: seven bits at a time, low group first, the high bit set on all but the last byte.
      For a non-negative value `value & 0x7F` is `value % 128`, `value >>= 7` is `value / 128` and
      `b |= 0x80` adds 128. */
  method WriteULEB128(w: ByteWriter, value: int)
    requires 0 <= value < TWO_TO_THE_31
    modifies w
    ensures w.bytes == old(w.bytes) + Uleb(value)
  {
    var v := value;
    ghost var start := w.bytes;
    while true
      invariant 0 <= v <= value
      invariant start + Uleb(value) == w.bytes + Uleb(v)
      decreases v
    {
      var b := v % 128;
      v := v / 128;
      if v != 0 {
        b := b + 128;
      }
      ghost var before := w.bytes;
      w.WriteByte(b);
      if v == 0 {
        return;
      }
      assert Uleb(v * 128 + (b - 128)) == [b] + Uleb(v);
      assert w.bytes + Uleb(v) == before + ([b] + Uleb(v));
    }
  }

  /** WriteString: 0x00 for the empty string, else 0x0B, the ULEB128 length of the UTF-8 bytes and
      the bytes. */
  method WriteString(w: ByteWriter, value: string)
    requires Writable(value)
    modifies w
    ensures w.bytes == old(w.bytes) + StringBytes(value)
  {
    if |value| == 0 {
      w.WriteByte(STRING_ABSENT);
      return;
    }
    ghost var start := w.bytes;
    w.WriteByte(STRING_PRESENT);
    var data := Utf8.Encode(value);
    WriteULEB128(w, |data|);
    w.WriteBytes(data);
    AppendThree(start, [STRING_PRESENT], Uleb(|data|), data);
  }

  /** Appending three parts one after the other appends their concatenation. */
  lemma AppendThree<T>(a: seq<T>, b: seq<T>, c: seq<T>, d: seq<T>)
    ensures a + b + c + d == a + (b + c + d)
  {
  }

  /** Appending in two steps appends the concatenation. */
  lemma AppendAssoc<T>(a: seq<T>, b: seq<T>, c: seq<T>)
    ensures a + b + c == a + (b + c)
  {
  }

  /** The empty sequence is the unit of concatenation. */
  lemma AppendEmpty<T>(a: seq<T>)
    ensures [] + a == a && a + [] == a
  {
  }

  /** No element occurs twice. */
  predicate Distinct<T(==)>(xs: seq<T>) {
    forall i, j | 0 <= i < j < |xs| :: xs[i] != xs[j]
  }

  /** Taking `h` out of the hashes still to write and appending it to those written keeps the
      written ones distinct and, with the rest, exactly the collection's hashes. */
  lemma PickStep(hs: set<string>, rest: set<string>, hashes: seq<string>, h: string)
    requires rest <= hs && |hashes| + |rest| == |hs| && h in rest
    requires HashSet(hashes) == hs - rest && Distinct(hashes)
    ensures rest - {h} <= hs && |hashes + [h]| + |rest - {h}| == |hs|
    ensures HashSet(hashes + [h]) == hs - (rest - {h}) && Distinct(hashes + [h])
  {
    assert HashSet(hashes + [h]) == HashSet(hashes) + {h};
    assert h !in hashes;
  }

  /** The hashes of one collection, each once, in the order the hash set yields them (any order). */
  method WriteHashes(w: ByteWriter, hs: set<string>) returns (hashes: seq<string>)
    requires forall h | h in hs :: Writable(h)
    modifies w
    ensures HashSet(hashes) == hs && Distinct(hashes) && |hashes| == |hs|
    ensures forall i | 0 <= i < |hashes| :: Writable(hashes[i])
    ensures w.bytes == old(w.bytes) + StringsBytes(hashes)
  {
    hashes := [];
    var rest := hs;
    while rest != {}
      invariant rest <= hs && |hashes| + |rest| == |hs|
      invariant HashSet(hashes) == hs - rest && Distinct(hashes)
      invariant forall i | 0 <= i < |hashes| :: Writable(hashes[i])
      invariant w.bytes == old(w.bytes) + StringsBytes(hashes)
      decreases |rest|
    {
      var h :| h in rest;
      WriteString(w, h);
      StringsBytesAppend(hashes, h);
      AppendAssoc(old(w.bytes), StringsBytes(hashes), StringBytes(h));
      PickStep(hs, rest, hashes, h);
      hashes := hashes + [h];
      rest := rest - {h};
    }
  }

  /** One collection of the merge: its name, its hash count and its hashes. */
  method WriteCollection(w: ByteWriter, name: string, hs: set<string>) returns (hashes: seq<string>)
    requires Writable(name) && |hs| < TWO_TO_THE_31 && forall h | h in hs :: Writable(h)
    modifies w
    ensures HashSet(hashes) == hs && Distinct(hashes) && ListingOk(Listing(name, hashes))
    ensures w.bytes == old(w.bytes) + ListingBytes(Listing(name, hashes))
  {
    WriteString(w, name);
    w.WriteInt32(|hs|);
    hashes := WriteHashes(w, hs);
    AppendAssoc(old(w.bytes) + StringBytes(name), Int32Bytes(|hs|), StringsBytes(hashes));
    AppendAssoc(old(w.bytes), StringBytes(name), Int32Bytes(|hs|) + StringsBytes(hashes));
  }

  // ---------------------------------------------------------------- folder names

  /** SanitizePath: every character of `invalidChars` (Path.GetInvalidFileNameChars) replaced by '_'
      in turn, then every '.' removed. */
  method SanitizePath(path: string, invalidChars: seq<char>) returns (r: string)
    ensures r == Sanitized(path, set c | c in invalidChars)
  {
    r := path;
    for k := 0 to |invalidChars|
      invariant |r| == |path|
      invariant forall i | 0 <= i < |path| :: r[i] == if path[i] in invalidChars[..k] then '_' else path[i]
    {
      r := Replace(r, invalidChars[k], '_');
    }
    assert invalidChars[..|invalidChars|] == invalidChars;
    assert r == ReplaceInvalid(path, set c | c in invalidChars);
    r := Remove(r, '.');
  }

  // ---------------------------------------------------------------- collections

  /** A merge BinaryWriter can write: the counts fit an int32 and every string can be encoded. */
  predicate Writes(m: map<string, set<string>>) {
    |m| < TWO_TO_THE_31 &&
    forall name | name in m :: Writable(name) && |m[name]| < TWO_TO_THE_31 && forall h | h in m[name] :: Writable(h)
  }

  /** A collection as written lists its name's hash set from the merge, every hash once. */
  predicate Listed(l: Listing, m: map<string, set<string>>) {
    l.name in m && HashSet(l.hashes) == m[l.name] && Distinct(l.hashes)
  }

  /** The collections as written list the merge exactly: every name once, each with its hash set,
      every hash once. */
  predicate Lists(written: seq<Listing>, m: map<string, set<string>>) {
    (forall i | 0 <= i < |written| :: Listed(written[i], m)) &&
    (forall name | name in m :: exists i | 0 <= i < |written| :: written[i].name == name) &&
    (forall i, j | 0 <= i < j < |written| :: written[i].name != written[j].name)
  }

  /** WriteCollections' loop state: every name of the merge not in `names` is written, once, with its
      hash set. */
  predicate Progress(written: seq<Listing>, names: set<string>, m: map<string, set<string>>) {
    names <= m.Keys && |written| + |names| == |m| &&
    (forall i | 0 <= i < |written| :: Listed(written[i], m) && ListingOk(written[i]) && written[i].name !in names) &&
    (forall name | name in m && name !in names :: exists i | 0 <= i < |written| :: written[i].name == name) &&
    (forall i, j | 0 <= i < j < |written| :: written[i].name != written[j].name)
  }

  /** Nothing is written at the start. */
  lemma ProgressStart(m: map<string, set<string>>)
    ensures Progress([], m.Keys, m)
  {
    assert |m.Keys| == |m|;
  }

  /** Once every name is taken, the merge is listed exactly. */
  lemma ProgressDone(written: seq<Listing>, m: map<string, set<string>>)
    requires Progress(written, {}, m) && |m| < TWO_TO_THE_31
    ensures Lists(written, m) && ListingsOk(written) && |written| == |m|
  {
  }

  /** Writing the collection of a name not written yet makes progress. */
  lemma ProgressStep(written: seq<Listing>, names: set<string>, m: map<string, set<string>>, l: Listing)
    requires Progress(written, names, m) && l.name in names && Listed(l, m) && ListingOk(l)
    ensures Progress(written + [l], names - {l.name}, m)
  {
    var next := written + [l];
    forall i | 0 <= i < |next|
      ensures next[i] == if i < |written| then written[i] else l
    {
    }
    forall other | other in m && other !in names - {l.name}
      ensures exists i | 0 <= i < |next| :: next[i].name == other
    {
      if other == l.name {
        assert next[|written|].name == other;
      } else {
        var i :| 0 <= i < |written| && written[i].name == other;
        assert next[i].name == other;
      }
    }
  }

  /** Writing one more collection after those written appends it to the listing bytes. */
  lemma WrittenStep(start: seq<byte>, written: seq<Listing>, l: Listing)
    requires (forall i | 0 <= i < |written| :: ListingOk(written[i])) && ListingOk(l)
    ensures start + ListingsBytes(written) + ListingBytes(l) == start + ListingsBytes(written + [l])
  {
    ListingsBytesAppend(written, l);
    AppendAssoc(start, ListingsBytes(written), ListingBytes(l));
  }

  /** The collections of the merge, each once, in the order the dictionary yields them (any order). */
  method WriteCollections(w: ByteWriter, merged: map<string, set<string>>) returns (written: seq<Listing>)
    requires Writes(merged)
    modifies w
    ensures Lists(written, merged) && ListingsOk(written) && |written| == |merged|
    ensures w.bytes == old(w.bytes) + ListingsBytes(written)
  {
    var names := merged.Keys;
    written := [];
    ProgressStart(merged);
    while names != {}
      invariant Progress(written, names, merged)
      invariant w.bytes == old(w.bytes) + ListingsBytes(written)
      decreases |names|
    {
      var name :| name in names;
      var hashes := WriteCollection(w, name, merged[name]);
      WrittenStep(old(w.bytes), written, Listing(name, hashes));
      ProgressStep(written, names, merged, Listing(name, hashes));
      written := written + [Listing(name, hashes)];
      names := names - {name};
    }
    ProgressDone(written, merged);
  }

  /** The files after the backup step: collection.db copied to collection.db.bak when it exists. */
  function BackedUp(files: map<string, seq<byte>>, db: string, backup: string): map<string, seq<byte>> {
    if db in files then files[backup := files[db]] else files
  }

  class ConversionManager {
    const stable: StableDatabaseReader.StableReader
    const disk: Disk
    const lazerPath: string
    const stablePath: string
    const stableSongsPath: string

    constructor (stable: StableDatabaseReader.StableReader, disk: Disk, lazerPath: string, stablePath: string,
                 stableSongsPath: string)
      ensures this.stable == stable && this.disk == disk
      ensures this.lazerPath == lazerPath && this.stablePath == stablePath && this.stableSongsPath == stableSongsPath
    {
      this.stable := stable;
      this.disk := disk;
      this.lazerPath := lazerPath;
      this.stablePath := stablePath;
      this.stableSongsPath := stableSongsPath;
    }

    /** The file loop of ConvertBeatmaps and ConvertSkins: each file is linked or copied from lazer's store
        into `dir`; a hash too short to slice throws out of the conversion. */
    method LinkFiles(dir: string, files: seq<AssetFile>) returns (error: Option<Error>)
      modifies disk
      ensures var run := PlaceFiles(lazerPath, dir, files);
        disk.placements == old(disk.placements) + run.placements && error == run.error
      ensures disk.files == old(disk.files) && disk.texts == old(disk.texts) && disk.directories == old(disk.directories)
    {
      for j := 0 to |files|
        invariant disk.placements + PlaceFiles(lazerPath, dir, files[j..]).placements ==
          old(disk.placements) + PlaceFiles(lazerPath, dir, files).placements
        invariant PlaceFiles(lazerPath, dir, files[j..]).error == PlaceFiles(lazerPath, dir, files).error
        invariant disk.files == old(disk.files) && disk.texts == old(disk.texts) && disk.directories == old(disk.directories)
      {
        var f := files[j];
        assert files[j..][0] == f && files[j..][1..] == files[j + 1..];
        if |f.hash| < 2 {
          return Some(ArgumentOutOfRange);
        }
        var source := Paths.Combine4(Paths.Combine(lazerPath, "files"), f.hash[..1], f.hash[..2], f.hash);
        var destination := Paths.Combine(dir, f.filename);
        PlaceFilesStep(lazerPath, dir, files[j..]);
        assert FilePlacement(lazerPath, dir, f) == Placement(source, destination);
        AppendAssoc(disk.placements, [Placement(source, destination)], PlaceFiles(lazerPath, dir, files[j + 1..]).placements);
        disk.LinkOrCopy(source, destination);
      }
      return None;
    }

    /** ConvertBeatmaps: the lazer beatmap sets whose beatmaps the stable index lacks are linked into
        stable's Songs folder. */
    method ConvertBeatmaps(sets: seq<BeatmapSet>, invalidChars: seq<char>) returns (error: Option<Error>)
      modifies disk
      ensures var path := stable.databasePath;
        var db := if path in old(disk.files) then Some(old(disk.files)[path]) else None;
        var run := BeatmapsRun(stable.path in old(disk.directories), db, sets, lazerPath, stableSongsPath, set c | c in invalidChars);
        disk.placements == old(disk.placements) + run.placements && error == run.error
      ensures disk.files == old(disk.files) && disk.texts == old(disk.texts) && disk.directories == old(disk.directories)
    {
      if stable.databasePath !in disk.files {
        return Some(if stable.path in disk.directories then FileNotFound else DirectoryNotFound);
      }
      var bytes := disk.files[stable.databasePath];
      var file := new byte[|bytes|](i requires 0 <= i < |bytes| => bytes[i]);
      var index := stable.GetBeatmaps(file);
      assert file[..] == bytes;
      if index.Err? {
        return Some(index.error);
      }
      var stableHashes := StableHashes(index.value);
      ghost var invalid := set c | c in invalidChars;
      ghost var plan := BeatmapsPlan(sets, stableHashes, lazerPath, stableSongsPath, invalid);
      for i := 0 to |sets|
        invariant disk.placements + BeatmapsPlan(sets[i..], stableHashes, lazerPath, stableSongsPath, invalid).placements ==
          old(disk.placements) + plan.placements
        invariant BeatmapsPlan(sets[i..], stableHashes, lazerPath, stableSongsPath, invalid).error == plan.error
        invariant disk.files == old(disk.files) && disk.texts == old(disk.texts) && disk.directories == old(disk.directories)
      {
        assert sets[i..][0] == sets[i] && sets[i..][1..] == sets[i + 1..];
        ghost var step := BeatmapStep(sets[i], stableHashes, lazerPath, stableSongsPath, invalid);
        ghost var rest := BeatmapsPlan(sets[i + 1..], stableHashes, lazerPath, stableSongsPath, invalid);
        ghost var before := disk.placements;
        var failure := ConvertBeatmapSet(sets[i], stableHashes, invalidChars);
        if failure.Some? {
          return failure;
        }
        AppendAssoc(before, step.placements, rest.placements);
      }
      assert sets[|sets|..] == [];
      assert disk.placements + [] == disk.placements;
      return None;
    }

    /** One pass of ConvertBeatmaps' loop. */
    method ConvertBeatmapSet(s: BeatmapSet, stableHashes: set<string>, invalidChars: seq<char>)
      returns (error: Option<Error>)
      modifies disk
      ensures var step := BeatmapStep(s, stableHashes, lazerPath, stableSongsPath, set c | c in invalidChars);
        disk.placements == old(disk.placements) + step.placements && error == step.error
      ensures disk.files == old(disk.files) && disk.texts == old(disk.texts) && disk.directories == old(disk.directories)
    {
      if s.protected {
        return None;
      }
      var toConvert := ToConvert(s.beatmapHashes, stableHashes);
      if |toConvert| == 0 {
        return None;
      }
      var folderName := SanitizePath(IdPrefix(s.onlineId) + s.artist + " - " + s.title, invalidChars);
      error := LinkFiles(Paths.Combine(stableSongsPath, folderName), s.files);
    }

    /** ConvertCollections: the stable and lazer collections merged by name are written to collection.db,
        after the previous file, if any, is copied to collection.db.bak. `written` is the merge in the
        order the dictionary and its hash sets were enumerated. */
    method ConvertCollections(stableCollections: seq<Collection>, lazerCollections: seq<Collection>)
      returns (written: seq<Listing>)
      requires Writes(Merge(stableCollections + lazerCollections))
      modifies disk
      ensures Lists(written, Merge(stableCollections + lazerCollections)) && ListingsOk(written)
      ensures var db, backup := Paths.Combine(stablePath, "collection.db"), Paths.Combine(stablePath, "collection.db.bak");
        disk.files == BackedUp(old(disk.files), db, backup)[db := CollectionDbBytes(written)]
      ensures disk.texts == old(disk.texts) && disk.directories == old(disk.directories) && disk.placements == old(disk.placements)
    {
      var merged := Merge(stableCollections + lazerCollections);
      var db := Paths.Combine(stablePath, "collection.db");
      var backup := Paths.Combine(stablePath, "collection.db.bak");
      if db in disk.files {
        disk.Copy(db, backup);
      }
      assert disk.files == BackedUp(old(disk.files), db, backup);
      var w := new ByteWriter();
      w.WriteInt32(COLLECTION_VERSION);
      w.WriteInt32(|merged|);
      written := WriteCollections(w, merged);
      AppendEmpty(Int32Bytes(COLLECTION_VERSION));
      AppendAssoc(Int32Bytes(COLLECTION_VERSION), Int32Bytes(|merged|), ListingsBytes(written));
      disk.WriteAll(db, w.bytes);
    }

    /** GetSkinNameFromIni: the `Name:` value of the skin's skin.ini, read as the lines of the file
        stored in lazer's store. */
    method GetSkinNameFromIni(skin: Skin) returns (res: Result<Option<string>>)
      ensures res == SkinIniName(skin, lazerPath, disk.texts)
    {
      var skinIni := IniFile(skin.files);
      if skinIni.None? {
        return Ok(None);
      }
      var hash := skinIni.value.hash;
      if |hash| < 2 {
        return Err(ArgumentOutOfRange);
      }
      var skinIniPath := Paths.Combine4(Paths.Combine(lazerPath, "files"), hash[..1], hash[..2], hash);
      if skinIniPath !in disk.texts {
        return Ok(None);
      }
      var lines := disk.texts[skinIniPath];
      ghost var ts := TrimAll(lines);
      assert SkinIniName(skin, lazerPath, disk.texts) == Ok(IniName(ts, false));
      assert ts[0..] == ts;
      var inGeneralSection := false;
      for i := 0 to |lines|
        invariant IniName(ts, false) == IniName(ts[i..], inGeneralSection)
      {
        var trimmed := Trim(lines[i]);
        IniNameStep(ts, i, inGeneralSection);
        if trimmed == "[General]" {
          inGeneralSection := true;
          continue;
        }
        if StartsWith(trimmed, "[") && EndsWith(trimmed, ']') {
          inGeneralSection := false;
          continue;
        }
        if inGeneralSection && StartsWith(trimmed, "Name:") {
          return Ok(Some(Trim(trimmed[|"Name:"|..])));
        }
      }
      return Ok(None);
    }

    /** One pass of ConvertSkins' loop. */
    method ConvertSkin(skin: Skin, stableSkins: set<string>, skinsDir: string) returns (error: Option<Error>)
      modifies disk
      ensures var step := SkinStep(skin, stableSkins, lazerPath, old(disk.texts), skinsDir);
        disk.placements == old(disk.placements) + step.placements &&
        disk.directories == old(disk.directories) + (set d | d in step.created) && error == step.error
      ensures disk.files == old(disk.files) && disk.texts == old(disk.texts)
    {
      if skin.instantiationInfo != LEGACY_SKIN {
        return None;
      }
      var iniName := GetSkinNameFromIni(skin);
      if iniName.Err? {
        return Some(iniName.error);
      }
      var skinName := ExtractSkinName(skin.name, iniName.value);
      if skinName in stableSkins {
        return None;
      }
      var skinDir := Paths.Combine(skinsDir, skinName);
      disk.CreateDirectory(skinDir);
      assert (set d | d in [skinDir]) == {skinDir};
      error := LinkFiles(skinDir, skin.files);
    }

    /** ConvertSkins: every legacy lazer skin whose folder name stable does not have yet gets a folder
        under stable's Skins directory, and its files are linked into it. */
    method ConvertSkins(skins: seq<Skin>) returns (error: Option<Error>)
      modifies disk
      ensures var run := SkinsRun(skins, old(disk.directories), old(disk.texts), lazerPath, Paths.Combine(stablePath, "Skins"));
        disk.placements == old(disk.placements) + run.placements &&
        disk.directories == old(disk.directories) + (set d | d in run.created) && error == run.error
      ensures disk.files == old(disk.files) && disk.texts == old(disk.texts)
    {
      var skinsDir := Paths.Combine(stablePath, "Skins");
      if skinsDir !in disk.directories {
        return Some(DirectoryNotFound);
      }
      var stableSkins := StableSkinNames(disk.directories, skinsDir);
      ghost var texts := disk.texts;
      ghost var plan := SkinsPlan(skins, stableSkins, lazerPath, texts, skinsDir);
      ghost var created: seq<string> := [];
      for i := 0 to |skins|
        invariant disk.placements + SkinsPlan(skins[i..], stableSkins, lazerPath, texts, skinsDir).placements ==
          old(disk.placements) + plan.placements
        invariant created + SkinsPlan(skins[i..], stableSkins, lazerPath, texts, skinsDir).created == plan.created
        invariant SkinsPlan(skins[i..], stableSkins, lazerPath, texts, skinsDir).error == plan.error
        invariant disk.directories == old(disk.directories) + (set d | d in created)
        invariant disk.files == old(disk.files) && disk.texts == texts
      {
        assert skins[i..][0] == skins[i] && skins[i..][1..] == skins[i + 1..];
        ghost var step := SkinStep(skins[i], stableSkins, lazerPath, texts, skinsDir);
        ghost var rest := SkinsPlan(skins[i + 1..], stableSkins, lazerPath, texts, skinsDir);
        ghost var before := disk.placements;
        var failure := ConvertSkin(skins[i], stableSkins, skinsDir);
        assert (set d | d in created + step.created) == (set d | d in created) + (set d | d in step.created);
        if failure.Some? {
          created := created + step.created;
          return failure;
        }
        AppendAssoc(before, step.placements, rest.placements);
        AppendAssoc(created, step.created, rest.created);
        created := created + step.created;
      }
      assert skins[|skins|..] == [];
      assert created + [] == created;
      assert disk.placements + [] == disk.placements;
      return None;
    }
  }
}
