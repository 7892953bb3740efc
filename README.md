# pointer — a Dafny model of the osu!lazer to osu!stable converter

pointer copies what an osu!lazer installation has into an osu!stable one.
This project models the core of that conversion and proves its properties:

- **Beatmaps.** Lazer beatmap sets are selected when stable's `osu!.db` does not already index them. Each selected set's files are linked from lazer's hashed file store into a sanitised folder under stable's Songs directory.
- **Collections.** Stable's and lazer's collections are merged by name. The old `collection.db` is backed up, and a new one is written in stable's binary layout (int32s, ULEB128-prefixed UTF-8 strings).
- **Skins.** Legacy lazer skins whose folder name stable does not already have are copied into `Skins/<name>`. The name is taken from the lazer skin name, with the `"{ini name} [{name}]"` wrapper that lazer adds undone using the `Name:` line of `skin.ini`.
- **The osu!.db reader.** The reader walks the header and every beatmap entry. Field widths depend on the database version. It reads strings, ULEB128 lengths and the star-rating dictionaries, and returns the hash, folder, title, artist, creator and difficulty of each entry.
- **Path resolution and the command line.** The Songs directory comes from the `BeatmapDirectory` setting of the per-user config file. The command line reads a database path after a flag.

## Modules

- **`Wrappers`.** Option, Result, and the errors the source raises.
- **`Bytes`, `Utf8`, `ValueCodec`.** Bytes and little-endian int32. UTF-8 encoding and decoding, with U+FFFD for ill-formed input. A position-passing decoder for every value the reader takes, plus the ULEB128 and string encoders, with their round trips.
- **`BinaryIO`.** `ByteReader` and `ByteWriter` classes over a byte array with a position, and an appended byte sequence: the two sides of BinaryReader/BinaryWriter.
- **`BeatmapIndex`, `IndexEncoding`.** The osu!.db layout as decoding functions, plus an encoder for star ratings and timing points with round-trip lemmas.
- **`EntryEncoding`.** An encoder for the osu!.db header and for whole entries at each version's widths, and the proof that the decoder reads a whole file back as one record per entry, in file order, each with its six kept strings.
- **`StableDatabaseReader`.** The reader's methods, each proved against its decoding function.
- **`CollectionDb`.** The collection.db encoder and its layout lemmas.
- **`Text`, `Paths`.** The String and Path operations used (Trim, OrdinalIgnoreCase prefix, Split, Replace, Path.Combine).
- **`ConversionRules`.** The pure rules: beatmap selection, folder naming, SanitizePath, hashed asset paths, ExtractSkinName, the `skin.ini` scan, and the collection merge.
- **`ConversionPlans`.** What a whole ConvertBeatmaps or ConvertSkins run does, as a `Run`: the file placements, the folders created and the error that ends the run, with soundness and completeness lemmas.
- **`Conversion`.** The imperative `ConversionManager` class over a `Disk` object, which holds the files, text files, directories and link/copy attempts. Each method is proved against its plan, and WriteULEB128 and WriteString are proved against the encoder.
- **`PathResolver`, `Program`.** GetStableSongsPath and ParseDbPath.

## Model

| member | source | states |
|---|---|---|
| StableDatabaseReader.StableReader.constructor | pointer.Core/Readers/StableDatabaseReader.cs:5-7 | the reader keeps the stable folder and opens `osu!.db` inside it |
| StableDatabaseReader.StableReader.GetBeatmaps | pointer.Core/Readers/StableDatabaseReader.cs:9-119 | reading the file gives exactly the decoded index: the header, then the beatmap count's entries in file order (none for a negative count), or the first error met |
| StableDatabaseReader.ReadHeader | pointer.Core/Readers/StableDatabaseReader.cs:14-20 | reads version, folder count, account flag and time, account name and beatmap count in that order and stops after the count |
| StableDatabaseReader.ReadEntries | pointer.Core/Readers/StableDatabaseReader.cs:22-118 | the loop reads the records one after the other, in order, stopping at the first failing record |
| StableDatabaseReader.ReadEntry | pointer.Core/Readers/StableDatabaseReader.cs:24-117 | one record: the extra int32 before version 20191106, the names, the statistics, star ratings, timing points and the trailing fields, yielding hash, folder, title, artist, creator and difficulty |
| StableDatabaseReader.ReadNames | pointer.Core/Readers/StableDatabaseReader.cs:27-35 | the nine strings at the head of a record in order, keeping artist, title, creator, difficulty and hash |
| StableDatabaseReader.ReadDifficulty | pointer.Core/Readers/StableDatabaseReader.cs:36-65 | ranked status and counts, four stats as bytes before 20140609 and as singles after, a double, and the four star-rating dictionaries only from 20140609 |
| StableDatabaseReader.ReadTimingPoints | pointer.Core/Readers/StableDatabaseReader.cs:71-77 | the int32 count, then 17 bytes per timing point; running out of bytes is an end-of-stream error |
| StableDatabaseReader.ReadTail | pointer.Core/Readers/StableDatabaseReader.cs:79-108 | the ids, grades, offsets and strings after the timing points, returning the folder name; the extra int16 only before 20140609 |
| StableDatabaseReader.ReadString | pointer.Core/Readers/StableDatabaseReader.cs:121-129 | marker 0x00 gives the empty string, 0x0B a ULEB128 length and that many UTF-8 bytes, any other marker an invalid-format error |
| StableDatabaseReader.ReadULEB128 | pointer.Core/Readers/StableDatabaseReader.cs:131-143 | accumulates 7-bit groups with 32-bit shifts until a byte without the high bit |
| StableDatabaseReader.ReadStarRatings | pointer.Core/Readers/StableDatabaseReader.cs:145-171 | an int32 count of (0x08, int32 mods, value marker, value) entries added to a dictionary |
| StableDatabaseReader.ReadRatings | pointer.Core/Readers/StableDatabaseReader.cs:148-170 | the loop over the entries: each read entry is added, a failed read or a key already present ends the read with that error, as the star-rating decoder says |
| StableDatabaseReader.ReadRating | pointer.Core/Readers/StableDatabaseReader.cs:149-168 | one entry: 0x08 marker, mods, then 0x0d and a double before 20250107 or 0x0c and a single from it |
| BeatmapIndex.EntriesStep | pointer.Core/Readers/StableDatabaseReader.cs:22-118 | reading n records reads one and then n - 1 more from where it ended, or stops with its error |
| BeatmapIndex.IndexCount | pointer.Core/Readers/StableDatabaseReader.cs:20-22 | a successful decode yields exactly beatmapCount records, none for a negative count |
| ValueCodec.BytesAt | pointer.Core/Readers/StableDatabaseReader.cs:127 | ReadBytes: a negative count is an argument error, and a short stream gives the bytes that remain |
| ValueCodec.StringMarkers | pointer.Core/Readers/StableDatabaseReader.cs:121-129 | the three marker cases of ReadString, a negative length as an argument error, a short stream truncating the data |
| ValueCodec.UlebGroups | pointer.Core/ConversionManager.cs:146-156 | each byte carries the next 7-bit group, low first; all but the last have the high bit set; zero is the single byte 0 |
| ValueCodec.UlebFitsFive | pointer.Core/ConversionManager.cs:146-156 | a non-negative int32 takes at most five bytes |
| ValueCodec.UlebRoundTrip | pointer.Core/Readers/StableDatabaseReader.cs:131-143 | ReadULEB128 reads back exactly the value WriteULEB128 wrote and stops after its last byte |
| ValueCodec.StringRoundTrip | pointer.Core/ConversionManager.cs:132-144 | ReadString reads back exactly the string WriteString wrote and stops after it |
| ValueCodec.Int32AtRoundTrip | pointer.Core/ConversionManager.cs:67-68 | an int32 written little-endian reads back |
| Bytes.Int32RoundTrip | pointer.Core/ConversionManager.cs:67-68 | the four little-endian bytes of an int32 reassemble to it |
| Utf8.DecodeEncode | pointer.Core/ConversionManager.cs:141 | decoding the UTF-8 bytes of a string gives the string back |
| IndexEncoding.RatingRoundTrip | pointer.Core/Readers/StableDatabaseReader.cs:149-168 | an encoded star-rating entry reads back as its mods and value bytes |
| IndexEncoding.RatingsFromRoundTrip | pointer.Core/Readers/StableDatabaseReader.cs:149-169 | encoded entries read back into the dictionary exactly when no key repeats; a repeated key is a duplicate-key error |
| IndexEncoding.StarRatingsRoundTrip | pointer.Core/Readers/StableDatabaseReader.cs:145-171 | a counted star-rating list reads back as the map of its pairs, or a duplicate-key error when a key repeats |
| IndexEncoding.InsertContents | pointer.Core/Readers/StableDatabaseReader.cs:161-167 | the dictionary holds exactly the keys read, each with the value read for it |
| IndexEncoding.RatingMarkerErrors | pointer.Core/Readers/StableDatabaseReader.cs:152-166 | a wrong first marker throws the int-pair error, a wrong value marker the double or float error by version |
| IndexEncoding.TimingRoundTrip | pointer.Core/Readers/StableDatabaseReader.cs:71-77 | n encoded timing points are skipped as 4 + 17n bytes |
| EntryEncoding.EntryRoundTrip | pointer.Core/Readers/StableDatabaseReader.cs:24-117 | an entry written at its version's widths (the leading int32 only before 20191106; byte stats, no star-rating maps and an extra int16 before 20140609) reads back as its artist, title, creator, difficulty, hash and folder name and ends exactly after the entry, or fails with a duplicate-key error when a star-rating map repeats a mods key |
| EntryEncoding.NamesRoundTrip | pointer.Core/Readers/StableDatabaseReader.cs:27-35 | the nine strings at the head of a written entry read back, keeping the 1st, 3rd, 5th, 6th and 8th |
| EntryEncoding.DifficultyRoundTrip | pointer.Core/Readers/StableDatabaseReader.cs:36-65 | the written difficulty block is consumed to its end: fixed stats alone before 20140609, the four star-rating maps after them from then on |
| EntryEncoding.TailRoundTrip | pointer.Core/Readers/StableDatabaseReader.cs:79-108 | the fields after the timing points are consumed at their widths and the folder name is read back |
| EntryEncoding.EntriesRoundTrip | pointer.Core/Readers/StableDatabaseReader.cs:22-118 | the record loop over entries written one after the other yields one record per entry, in order, each the entry's record, or a duplicate-key error when some entry's star-rating map repeats a mods key |
| EntryEncoding.HeaderRoundTrip | pointer.Core/Readers/StableDatabaseReader.cs:14-20 | a written header (version, folder count, account flag and time, account name, beatmap count) reads back as its version and count and ends after the count |
| EntryEncoding.IndexFileRoundTrip | pointer.Core/Readers/StableDatabaseReader.cs:9-119 | a whole written osu!.db decodes to exactly one record per entry, in file order, each carrying the entry's artist, title, creator, difficulty, hash and folder name, with every other field consumed; or a duplicate-key error when a star-rating map repeats a key |
| CollectionDb.CollectionDbHeader | pointer.Core/ConversionManager.cs:67-68 | collection.db starts with version 20251128 and then the number of collections |
| CollectionDb.CollectionDbBody | pointer.Core/ConversionManager.cs:64-79 | after the eight header bytes come the collections and nothing else |
| CollectionDb.CollectionDbEntries | pointer.Core/ConversionManager.cs:70-79 | the collections lie one after the other at their offsets and the last one ends the file |
| CollectionDb.ListingLaid | pointer.Core/ConversionManager.cs:72-73 | a collection is its name string followed by its hash count and hashes |
| CollectionDb.ListingCount | pointer.Core/ConversionManager.cs:73-78 | after the name, the hash count reads back and the hashes follow |
| CollectionDb.HashesLaid | pointer.Core/ConversionManager.cs:75-78 | every hash string lies at its offset, one after another, the last ending the list |
| ConversionRules.ToConvert | pointer.Core/ConversionManager.cs:19-21 | the set's beatmap hashes that the stable index lacks, and every lacking hash is among them |
| ConversionRules.SelectedIff | pointer.Core/ConversionManager.cs:17-22 | a set is converted exactly when it is not protected and some beatmap hash is missing from stable |
| ConversionRules.ReplaceInvalid | pointer.Core/ConversionManager.cs:122-126 | every invalid character becomes '_' and every other character stays |
| ConversionRules.SanitizedClean | pointer.Core/ConversionManager.cs:120-130 | a sanitised name has no '.' and, when '_' is valid, no invalid character |
| ConversionRules.CharOfSanitized | pointer.Core/ConversionManager.cs:120-130 | the only invalid character a sanitised name can hold is '_' itself |
| ConversionRules.SanitizedIdempotent | pointer.Core/ConversionManager.cs:120-130 | sanitising twice is sanitising once |
| ConversionRules.AssetPath | pointer.Core/ConversionManager.cs:31 | a hash shorter than two characters is an argument error from its slices |
| ConversionRules.AssetPathLayout | pointer.Core/ConversionManager.cs:31 | a file's store path is `lazerPath/files/h[0..1]/h[0..2]/h` |
| ConversionRules.ExtractWrapped | pointer.Core/ConversionManager.cs:192-209 | ExtractSkinName undoes the `"{ini} [name]"` wrapper |
| ConversionRules.ExtractOtherwise | pointer.Core/ConversionManager.cs:192-209 | the result is the skin name itself or the inner part of its wrapper |
| ConversionRules.IniNameFound | pointer.Core/ConversionManager.cs:166-189 | a name found comes from the first `Name:` line met inside `[General]` |
| ConversionRules.IniNameComplete | pointer.Core/ConversionManager.cs:166-189 | if any line is a `Name:` line inside `[General]`, a name is found |
| ConversionRules.NamedHashesSpec | pointer.Core/ConversionManager.cs:49-52 | a name's hashes are those of the collections carrying that name |
| ConversionRules.MergeIntoSpec | pointer.Core/ConversionManager.cs:47-53 | merging adds every name once, with the union of its collections' hashes |
| ConversionRules.MergeKeys | pointer.Core/ConversionManager.cs:47-53 | the merged names are exactly the names of stable and lazer collections |
| ConversionRules.MergeHashes | pointer.Core/ConversionManager.cs:47-53 | a merged collection holds exactly the hashes of the same-named stable and lazer collections, so stable's hashes are kept |
| ConversionRules.MergeIdempotent | pointer.Core/ConversionManager.cs:47-53 | merging the lazer collections in again changes nothing |
| ConversionPlans.PlaceFilesSpec | pointer.Core/ConversionManager.cs:29-41 | files are placed in order, each from its store path to the folder; a short hash ends the run with an argument error at that file |
| ConversionPlans.BeatmapsPlanSound | pointer.Core/ConversionManager.cs:14-41 | every placement is a file of a selected set linked into that set's folder |
| ConversionPlans.BeatmapsPlanComplete | pointer.Core/ConversionManager.cs:14-41 | without error every file of every selected set is placed; an error is an argument error from some selected set's short hash |
| ConversionPlans.IniFileFirst | pointer.Core/ConversionManager.cs:160-161 | the ini file is the first one named skin.ini in any case, or none when no file is |
| ConversionPlans.SkinsPlanSound | pointer.Core/ConversionManager.cs:90-117 | every folder created belongs to a legacy skin whose name stable does not already have |
| ConversionPlans.SkinsPlanComplete | pointer.Core/ConversionManager.cs:90-117 | without error every such skin gets its folder and all its files placed in it |
| ConversionPlans.StableHashes | pointer.Core/ConversionManager.cs:10-12 | the stable hash set holds exactly the hashes of the index entries |
| ConversionPlans.StableSkinNames | pointer.Core/ConversionManager.cs:86-88 | the stable skin names are exactly the names of the folders directly under Skins: a name is in the set if and only if it is non-empty, holds no separator and Skins joined with it is a folder |
| Conversion.WriteULEB128 | pointer.Core/ConversionManager.cs:146-156 | the loop appends exactly the ULEB128 groups of the value |
| Conversion.WriteString | pointer.Core/ConversionManager.cs:132-144 | appends 0x00 for the empty string, else 0x0B, the byte length and the UTF-8 bytes |
| Conversion.SanitizePath | pointer.Core/ConversionManager.cs:120-130 | the loop gives the sanitised name: invalid characters replaced, dots removed |
| Conversion.WriteHashes | pointer.Core/ConversionManager.cs:75-78 | writes every hash of the set exactly once, in some order |
| Conversion.WriteCollection | pointer.Core/ConversionManager.cs:72-78 | writes a name, its hash count and every hash once |
| Conversion.WriteCollections | pointer.Core/ConversionManager.cs:70-79 | writes every merged collection exactly once with its hash set, in some order |
| Conversion.ConversionManager.constructor | pointer.Core/ConversionManager.cs:6 | the manager keeps the reader, the file system and the three paths |
| Conversion.ConversionManager.LinkFiles | pointer.Core/ConversionManager.cs:29-41 | the link attempts are the plan's placements; a short hash stops the loop |
| Conversion.ConversionManager.ConvertBeatmapSet | pointer.Core/ConversionManager.cs:17-41 | one set: skipped when protected or already in stable, else its files linked into its folder |
| Conversion.ConversionManager.ConvertBeatmaps | pointer.Core/ConversionManager.cs:8-43 | reads the stable index and performs the beatmap plan: the link-or-copy attempts are exactly the plan's placements; a missing stable folder is a directory-not-found error, a missing `osu!.db` in an existing folder a file-not-found error, and a bad index its decoding error |
| Conversion.ConversionManager.ConvertCollections | pointer.Core/ConversionManager.cs:45-82 | backs up an existing collection.db, then writes the merge in the collection.db layout, every name once with its hash set |
| Conversion.ConversionManager.GetSkinNameFromIni | pointer.Core/ConversionManager.cs:158-190 | the scan returns what the first `Name:` line inside `[General]` says, or nothing when there is no ini, no file or no such line |
| Conversion.ConversionManager.ConvertSkin | pointer.Core/ConversionManager.cs:92-116 | one skin: skipped unless legacy and new to stable, else its folder is created and its files linked |
| Conversion.ConversionManager.ConvertSkins | pointer.Core/ConversionManager.cs:84-118 | lists stable's skin folders (a missing Skins folder is the error) and performs the skin plan |
| PathResolver.ScanFirst | pointer.Core/Utils/PathResolver.cs:54-64 | the scan finds nothing exactly when no line decides, and otherwise what the first deciding line says |
| PathResolver.SongsPathSpec | pointer.Core/Utils/PathResolver.cs:48-68 | `basePath/Songs` without a config file or a deciding line; otherwise the first `BeatmapDirectory` line (any case) with a rooted value (kept as is) or a non-empty one (resolved under basePath); since the empty path is not rooted, a line decides exactly when it starts with `BeatmapDirectory` and its value is non-empty, so empty values are skipped |
| PathResolver.SettingValueAfterLastEquals | pointer.Core/Utils/PathResolver.cs:58 | the value is the trimmed text after the line's last '=' |
| Program.IndexOf | pointer.Cli/Program.cs:48 | the first position of the flag, or -1 exactly when it is absent |
| Program.ParseDbPath | pointer.Cli/Program.cs:46-55 | the default when the flag is absent, last, or followed by a `--` argument; otherwise the argument after its first occurrence; always the default or one of the arguments |

## Left out

- Console output is not modelled: progress messages and the messages of caught per-file exceptions.
- LazerDatabaseReader (Realm) is not part of this model. Lazer's beatmap sets, collections and skins are parameters.
- The stable side of the collection merge calls a `GetCollections` that the stable reader does not define. The stable collections are therefore a parameter of ConvertCollections.
- FileLinker is not part of this model. Disk.LinkOrCopy records each link-or-copy attempt and nothing else: its failures are caught per file in the source, and its effects on the disk are not modelled. FileLinker creates the destination's folder (such as a set folder and its subfolders), deletes an existing destination file and creates the hard link or copy. The `files` and `directories` frames of LinkFiles, ConvertBeatmapSet, ConvertBeatmaps, ConvertSkin and ConvertSkins, and ConvertSkins' equation for `directories`, therefore describe only the effects outside FileLinker.
- Directory.CreateDirectory's creation of missing parent folders is not modelled: only the folder itself is added.
- File.ReadLines's line splitting is not modelled. Text files are given as their lines.
- GetBeatmaps' lazy enumeration is not modelled. The whole index is decoded at once, which yields the same records or the same first error.
- Floating-point fields are not modelled. Stats, star-rating values and timing points are kept as raw bytes; only their widths matter.
- Hash-set and dictionary enumeration order is not modelled. The written order is any order, and the contracts hold for every order.
- Null strings are not modelled: the model has no null name or hash.
- Path.GetInvalidFileNameChars, Path.IsPathRooted, Path.GetFullPath and Environment.UserName are parameters.
- Path.Combine is modelled Unix-style with '/' only: it treats a part starting with '/' as rooted. The `rooted` parameter of GetStableSongsPath stands for Path.IsPathRooted and is not tied to that rule; SongsPathSpec only assumes that the empty path is not rooted.
- OrdinalIgnoreCase comparisons are modelled for the ASCII prefixes and file names the source compares against.
- Three `StartsWith(string)` calls are culture-sensitive in .NET and are modelled as ordinal prefix tests: ParseDbPath's `StartsWith("--")`, GetSkinNameFromIni's `StartsWith("Name:")` and ExtractSkinName's `StartsWith(iniName + " [")`. A culture comparison ignores characters such as the soft hyphen U+00AD. It can therefore match a prefix longer than the name, and ExtractSkinName's Substring then throws an ArgumentOutOfRangeException that ConvertSkins does not catch. The model never takes that path: its ordinal test only matches a prefix that fits.
- Strings are sequences of Unicode scalar values. A C# string can hold a lone UTF-16 surrogate, which Encoding.UTF8.GetBytes writes as EF BF BD (U+FFFD), so in the source such a string does not survive a write and read. That case is not modelled, and ValueCodec.StringRoundTrip, Utf8.DecodeEncode and Conversion.WriteString hold for every string of the model.
- Partially written files after an exception are not modelled: a failing write is not represented.
- CollectionDb: there is no single decoder for the whole of collection.db. The layout lemmas place every value, and the string, int32 and ULEB128 round-trip lemmas read each one back.
- Conversion.WriteULEB128 requires a non-negative value. In the source, a negative value never reaches zero under the arithmetic shift, and the only caller passes a byte length.
- Conversion.ConversionManager.ConvertCollections requires the merge to fit the int32 counts and lengths BinaryWriter writes.
- The GetDefaultStablePath, GetDefaultLazerPath and top-level statements of the command line are not part of this model.
- The rest of PathResolver is not part of this model.
