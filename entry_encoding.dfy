/**
 * An encoder for the entries of the legacy beatmap index, field by field in the
 * order and at the widths osu!stable writes them, and the proof that the
 * decoder in BeatmapIndex reads them back: each entry yields its six kept
 * strings, every other field is consumed at its version's width, and the
 * decode ends exactly after the entry. A repeated mods key in one of the
 * star-rating maps is the only way such an entry fails to decode.
 */
module EntryEncoding {
  import opened Wrappers
  import opened Bytes
  import opened ValueCodec
  import opened BeatmapIndex
  import opened IndexEncoding

  /** Every field of an index entry. Numbers and flags the reader drops are kept as their raw bytes. */
  datatype Entry = Entry(
    entrySize: seq<byte>,           // int32, written only before VERSION_WITHOUT_ENTRY_SIZE
    artist: string, artistUnicode: string, title: string, titleUnicode: string,
    creator: string, difficulty: string, audioFile: string, hash: string, osuFile: string,
    stats: seq<byte>,               // ranked status, three object counts, last modified, four stats, slider velocity
    starRatings: seq<seq<Rating>>,  // standard, taiko, catch and mania, from VERSION_FLOAT_STATS on
    times: seq<byte>,               // drain, total and preview time
    timingPoints: seq<seq<byte>>,
    ids: seq<byte>,                 // difficulty, beatmap and thread id, four grades, offset, stack leniency, mode
    source: string, tags: string,
    onlineOffset: seq<byte>,
    titleFont: string,
    playState: seq<byte>,           // is unplayed, last played, is osz2
    folderName: string,
    trailer: seq<byte>)             // last checked, five flags, (old versions) an int16, last modified, scroll speed

  /** One field as the writer lays it out and the reader consumes it: raw bytes the reader skips, a
      string, the difficulty block (the fixed stats, then the star-rating maps) or the timing points. */
  datatype Field =
    | Raw(bytes: seq<byte>)
    | Str(text: string)
    | Difficulty(stats: seq<byte>, maps: seq<seq<Rating>>)
    | Points(points: seq<seq<byte>>)

  /** Star-rating maps the writer can lay out: int32 counts and values of the version's width. */
  predicate MapsOk(maps: seq<seq<Rating>>, version: int) {
    forall i | 0 <= i < |maps| :: |maps[i]| < TWO_TO_THE_31 && RatingsOk(maps[i], version)
  }

  /** Timing points the writer can lay out: an int32 count of 17-byte points. */
  predicate PointsOk(points: seq<seq<byte>>) {
    |points| < TWO_TO_THE_31 && forall i | 0 <= i < |points| :: |points[i]| == 17
  }

  /** What the writer can lay out: strings short enough for a ULEB128 length, and the above. */
  predicate FieldOk(f: Field, version: int) {
    match f
    case Raw(_) => true
    case Str(x) => Writable(x)
    case Difficulty(_, maps) => MapsOk(maps, version)
    case Points(points) => PointsOk(points)
  }

  predicate FieldsOk(fs: seq<Field>, version: int) {
    forall k | 0 <= k < |fs| :: FieldOk(fs[k], version)
  }

  function MapParts(maps: seq<seq<Rating>>, version: int): (r: seq<seq<byte>>)
    requires MapsOk(maps, version)
    ensures |r| == |maps|
  {
    seq(|maps|, i requires 0 <= i < |maps| => RatingMapBytes(maps[i], version))
  }

  /** A field's bytes. */
  function FieldBytes(f: Field, version: int): seq<byte>
    requires FieldOk(f, version)
  {
    match f
    case Raw(bytes) => bytes
    case Str(x) => StringBytes(x)
    case Difficulty(stats, maps) => stats + Cat(MapParts(maps, version))
    case Points(points) => TimingBytes(points)
  }

  function FieldParts(fs: seq<Field>, version: int): (r: seq<seq<byte>>)
    requires FieldsOk(fs, version)
    ensures |r| == |fs|
  {
    seq(|fs|, k requires 0 <= k < |fs| => FieldBytes(fs[k], version))
  }

  /** The fields of an entry, in the order osu!stable writes them. */
  function Fields(e: Entry): (r: seq<Field>)
    ensures |r| == 21
  {
    [Raw(e.entrySize),
     Str(e.artist), Str(e.artistUnicode), Str(e.title), Str(e.titleUnicode), Str(e.creator),
     Str(e.difficulty), Str(e.audioFile), Str(e.hash), Str(e.osuFile),
     Difficulty(e.stats, e.starRatings), Raw(e.times), Points(e.timingPoints),
     Raw(e.ids), Str(e.source), Str(e.tags), Raw(e.onlineOffset), Str(e.titleFont), Raw(e.playState),
     Str(e.folderName), Raw(e.trailer)]
  }

  /** What the writer can lay out, at the widths osu!stable writes by version: the entry size only before
      VERSION_WITHOUT_ENTRY_SIZE; the four stats as bytes before VERSION_FLOAT_STATS and as singles after;
      the four star-rating maps only from then on, when the trailer loses its int16. */
  predicate EntryOk(e: Entry, version: int) {
    FieldsOk(Fields(e), version) && WidthsOk(e, version)
  }

  /** The fixed-width fields of an entry have the widths osu!stable writes at this version. */
  predicate WidthsOk(e: Entry, version: int) {
    var early := version < VERSION_FLOAT_STATS;
    |e.entrySize| == (if version < VERSION_WITHOUT_ENTRY_SIZE then 4 else 0) &&
    |e.stats| == 1 + 3 * 2 + 8 + (if early then 4 * 1 else 4 * 4) + 8 &&
    |e.starRatings| == (if early then 0 else 4) &&
    |e.times| == 3 * 4 &&
    |e.ids| == 3 * 4 + 4 * 1 + 2 + 4 + 1 &&
    |e.onlineOffset| == 2 &&
    |e.playState| == 1 + 8 + 1 &&
    |e.trailer| == 8 + 5 * 1 + (if early then 2 else 0) + 4 + 1
  }

  /** A whole entry as osu!stable writes it. */
  function EntryBytes(e: Entry, version: int): seq<byte>
    requires EntryOk(e, version)
  {
    Cat(FieldParts(Fields(e), version))
  }

  /** No star-rating map repeats a mods key. */
  predicate MapsFresh(maps: seq<seq<Rating>>) {
    forall i | 0 <= i < |maps| :: Fresh(map[], maps[i])
  }

  /** The record the reader yields for an entry. */
  function Record(e: Entry): BeatmapInfo {
    BeatmapInfo(e.hash, e.folderName, e.title, e.artist, e.creator, e.difficulty)
  }

  // ---------------------------------------------------------------- the difficulty block

  /** The difficulty block: the fixed stats are skipped and, from VERSION_FLOAT_STATS on, the four maps
      read one after the other; a map with a repeated key is a duplicate-key error. */
  lemma DifficultyFollow(s: seq<byte>, p: nat, ps: seq<nat>, version: int, maps: seq<seq<Rating>>, end: nat)
    requires version >= VERSION_FLOAT_STATS && |maps| == 4 && |ps| == 5 && ps[4] == end
    requires p <= |s| && SkipAt(s, p, 15 + StatsWidth(version) + 8) == Ok(ps[0])
    requires ps[0] <= |s| && StarRatingsAt(s, ps[0], version) ==
      if Fresh(map[], maps[0]) then Ok((Insert(map[], maps[0]), ps[1])) else Err(DuplicateKey)
    requires ps[1] <= |s| && StarRatingsAt(s, ps[1], version) ==
      if Fresh(map[], maps[1]) then Ok((Insert(map[], maps[1]), ps[2])) else Err(DuplicateKey)
    requires ps[2] <= |s| && StarRatingsAt(s, ps[2], version) ==
      if Fresh(map[], maps[2]) then Ok((Insert(map[], maps[2]), ps[3])) else Err(DuplicateKey)
    requires ps[3] <= |s| && StarRatingsAt(s, ps[3], version) ==
      if Fresh(map[], maps[3]) then Ok((Insert(map[], maps[3]), ps[4])) else Err(DuplicateKey)
    ensures DifficultyAt(s, p, version) == if MapsFresh(maps) then Ok(end) else Err(DuplicateKey)
  {
    FreshFour(maps);
  }

  lemma FreshFour(maps: seq<seq<Rating>>)
    requires |maps| == 4
    ensures MapsFresh(maps) <==>
      Fresh(map[], maps[0]) && Fresh(map[], maps[1]) && Fresh(map[], maps[2]) && Fresh(map[], maps[3])
  {
    if Fresh(map[], maps[0]) && Fresh(map[], maps[1]) && Fresh(map[], maps[2]) && Fresh(map[], maps[3]) {
      forall i | 0 <= i < |maps| ensures Fresh(map[], maps[i]) {
        if i == 0 {} else if i == 1 {} else if i == 2 {} else {}
      }
    }
  }

  /** One star-rating map laid out from `a` to `b` reads back as its pairs, or as a duplicate key. */
  lemma MapRead(s: seq<byte>, a: nat, b: nat, version: int, m: seq<Rating>)
    requires |m| < TWO_TO_THE_31 && RatingsOk(m, version)
    requires At(s, a, RatingMapBytes(m, version)) && b == a + |RatingMapBytes(m, version)| && b <= |s|
    ensures a <= |s| && StarRatingsAt(s, a, version) ==
      if Fresh(map[], m) then Ok((Insert(map[], m), b)) else Err(DuplicateKey)
  {
    StarRatingsRoundTrip(s, a, version, m);
  }

  /** The four star-rating maps laid out from `q` read back one after the other. */
  lemma MapsRead(s: seq<byte>, q: nat, maps: seq<seq<Rating>>, version: int) returns (ps: seq<nat>)
    requires MapsOk(maps, version) && |maps| == 4 && At(s, q, Cat(MapParts(maps, version)))
    ensures |ps| == 5 && ps[0] == q && ps[4] == q + |Cat(MapParts(maps, version))|
    ensures ps[0] <= |s| && StarRatingsAt(s, ps[0], version) ==
      if Fresh(map[], maps[0]) then Ok((Insert(map[], maps[0]), ps[1])) else Err(DuplicateKey)
    ensures ps[1] <= |s| && StarRatingsAt(s, ps[1], version) ==
      if Fresh(map[], maps[1]) then Ok((Insert(map[], maps[1]), ps[2])) else Err(DuplicateKey)
    ensures ps[2] <= |s| && StarRatingsAt(s, ps[2], version) ==
      if Fresh(map[], maps[2]) then Ok((Insert(map[], maps[2]), ps[3])) else Err(DuplicateKey)
    ensures ps[3] <= |s| && StarRatingsAt(s, ps[3], version) ==
      if Fresh(map[], maps[3]) then Ok((Insert(map[], maps[3]), ps[4])) else Err(DuplicateKey)
  {
    var parts := MapParts(maps, version);
    ps := Offsets(q, parts);
    AtPart(s, q, parts, 0);
    MapRead(s, ps[0], ps[1], version, maps[0]);
    AtPart(s, q, parts, 1);
    MapRead(s, ps[1], ps[2], version, maps[1]);
    AtPart(s, q, parts, 2);
    MapRead(s, ps[2], ps[3], version, maps[2]);
    AtPart(s, q, parts, 3);
    MapRead(s, ps[3], ps[4], version, maps[3]);
  }

  /** The difficulty block laid out at `p` reads back to its end, unless a map repeats a key. */
  lemma DifficultyRoundTrip(s: seq<byte>, p: nat, stats: seq<byte>, maps: seq<seq<Rating>>, version: int, end: nat)
    requires MapsOk(maps, version)
    requires |stats| == 15 + StatsWidth(version) + 8 && |maps| == (if version < VERSION_FLOAT_STATS then 0 else 4)
    requires At(s, p, stats + Cat(MapParts(maps, version))) && end == p + |stats + Cat(MapParts(maps, version))|
    ensures p <= |s| && DifficultyAt(s, p, version) == if MapsFresh(maps) then Ok(end) else Err(DuplicateKey)
  {
    var parts := MapParts(maps, version);
    AtSplit(s, p, stats, Cat(parts));
    FixedStep(s, p, stats);
    var q := p + |stats|;
    if version >= VERSION_FLOAT_STATS {
      var ps := MapsRead(s, q, maps, version);
      assert ps[4] == end;
      DifficultyFollow(s, p, ps, version, maps, end);
    } else {
      assert parts == [];
      assert MapsFresh(maps);
      assert end == q;
      assert SkipAt(s, p, 15 + StatsWidth(version) + 8) == Ok(q);
      assert DifficultyAt(s, p, version) == Ok(q);
    }
  }

  // ---------------------------------------------------------------- one part of a layout

  /** A part of a layout that the reader skips ends where the next part starts. */
  lemma RawAt(s: seq<byte>, p: nat, parts: seq<seq<byte>>, i: nat)
    requires At(s, p, Cat(parts)) && i < |parts|
    ensures var ps := Offsets(p, parts);
      ps[i] <= |s| && SkipAt(s, ps[i], |parts[i]|) == Ok(ps[i + 1])
  {
    AtPart(s, p, parts, i);
    FixedStep(s, Offsets(p, parts)[i], parts[i]);
  }

  /** A string part of a layout reads back as its text and ends where the next part starts. */
  lemma StringAtPart(s: seq<byte>, p: nat, parts: seq<seq<byte>>, i: nat, x: string)
    requires At(s, p, Cat(parts)) && i < |parts| && Writable(x) && parts[i] == StringBytes(x)
    ensures var ps := Offsets(p, parts);
      ps[i] <= |s| && StringAt(s, ps[i]) == Ok((x, ps[i + 1]))
  {
    AtPart(s, p, parts, i);
    StringRoundTrip(s, Offsets(p, parts)[i], x);
  }

  /** The difficulty part of a layout reads back to where the next part starts. */
  lemma DifficultyAtPart(s: seq<byte>, p: nat, parts: seq<seq<byte>>, i: nat, stats: seq<byte>,
                         maps: seq<seq<Rating>>, version: int)
    requires At(s, p, Cat(parts)) && i < |parts| && MapsOk(maps, version)
    requires |stats| == 15 + StatsWidth(version) + 8 && |maps| == (if version < VERSION_FLOAT_STATS then 0 else 4)
    requires parts[i] == stats + Cat(MapParts(maps, version))
    ensures var ps := Offsets(p, parts);
      ps[i] <= |s| && DifficultyAt(s, ps[i], version) == if MapsFresh(maps) then Ok(ps[i + 1]) else Err(DuplicateKey)
  {
    var ps := Offsets(p, parts);
    AtPart(s, p, parts, i);
    DifficultyRoundTrip(s, ps[i], stats, maps, version, ps[i + 1]);
  }

  /** The timing part of a layout reads back to where the next part starts. */
  lemma TimingAtPart(s: seq<byte>, p: nat, parts: seq<seq<byte>>, i: nat, points: seq<seq<byte>>)
    requires At(s, p, Cat(parts)) && i < |parts| && PointsOk(points) && parts[i] == TimingBytes(points)
    ensures var ps := Offsets(p, parts);
      ps[i] <= |s| && TimingPointsAt(s, ps[i]) == Ok(ps[i + 1])
  {
    AtPart(s, p, parts, i);
    TimingLength(points);
    TimingRoundTrip(s, Offsets(p, parts)[i], points);
  }

  // ---------------------------------------------------------------- one field of a layout

  /** A raw field of a layout is skipped to where the next field starts. */
  lemma SkipPart(s: seq<byte>, p: nat, fs: seq<Field>, version: int, i: nat)
    requires FieldsOk(fs, version) && At(s, p, Cat(FieldParts(fs, version))) && i < |fs| && fs[i].Raw?
    ensures var ps := Offsets(p, FieldParts(fs, version));
      ps[i] <= |s| && SkipAt(s, ps[i], |fs[i].bytes|) == Ok(ps[i + 1])
  {
    RawAt(s, p, FieldParts(fs, version), i);
  }

  /** A string field of a layout reads back as its text and ends where the next field starts. */
  lemma StringPart(s: seq<byte>, p: nat, fs: seq<Field>, version: int, i: nat)
    requires FieldsOk(fs, version) && At(s, p, Cat(FieldParts(fs, version))) && i < |fs| && fs[i].Str?
    ensures var ps := Offsets(p, FieldParts(fs, version));
      ps[i] <= |s| && StringAt(s, ps[i]) == Ok((fs[i].text, ps[i + 1]))
  {
    assert FieldOk(fs[i], version);
    StringAtPart(s, p, FieldParts(fs, version), i, fs[i].text);
  }

  /** The difficulty field of a layout reads back to where the next field starts. */
  lemma DifficultyPart(s: seq<byte>, p: nat, fs: seq<Field>, version: int, i: nat)
    requires FieldsOk(fs, version) && At(s, p, Cat(FieldParts(fs, version))) && i < |fs| && fs[i].Difficulty?
    requires |fs[i].stats| == 15 + StatsWidth(version) + 8
    requires |fs[i].maps| == (if version < VERSION_FLOAT_STATS then 0 else 4)
    ensures var ps := Offsets(p, FieldParts(fs, version));
      ps[i] <= |s| &&
      DifficultyAt(s, ps[i], version) == if MapsFresh(fs[i].maps) then Ok(ps[i + 1]) else Err(DuplicateKey)
  {
    assert FieldOk(fs[i], version);
    DifficultyAtPart(s, p, FieldParts(fs, version), i, fs[i].stats, fs[i].maps, version);
  }

  /** The timing field of a layout reads back to where the next field starts. */
  lemma TimingPart(s: seq<byte>, p: nat, fs: seq<Field>, version: int, i: nat)
    requires FieldsOk(fs, version) && At(s, p, Cat(FieldParts(fs, version))) && i < |fs| && fs[i].Points?
    ensures var ps := Offsets(p, FieldParts(fs, version));
      ps[i] <= |s| && TimingPointsAt(s, ps[i]) == Ok(ps[i + 1])
  {
    assert FieldOk(fs[i], version);
    TimingAtPart(s, p, FieldParts(fs, version), i, fs[i].points);
  }

  lemma TimingLength(points: seq<seq<byte>>)
    requires PointsOk(points)
    ensures |TimingBytes(points)| == 4 + 17 * |points|
  {
    CatLength(points);
  }

  // ---------------------------------------------------------------- a whole entry

  /** The nine strings after the entry size read back as EntryNamesAt's result. */
  lemma NamesFollow(s: seq<byte>, ps: seq<nat>, e: Entry)
    requires |ps| == 22 && ps[1] <= |s|
    requires StringAt(s, ps[1]) == Ok((e.artist, ps[2])) && ps[2] <= |s|
    requires StringAt(s, ps[2]) == Ok((e.artistUnicode, ps[3])) && ps[3] <= |s|
    requires StringAt(s, ps[3]) == Ok((e.title, ps[4])) && ps[4] <= |s|
    requires StringAt(s, ps[4]) == Ok((e.titleUnicode, ps[5])) && ps[5] <= |s|
    requires StringAt(s, ps[5]) == Ok((e.creator, ps[6])) && ps[6] <= |s|
    requires StringAt(s, ps[6]) == Ok((e.difficulty, ps[7])) && ps[7] <= |s|
    requires StringAt(s, ps[7]) == Ok((e.audioFile, ps[8])) && ps[8] <= |s|
    requires StringAt(s, ps[8]) == Ok((e.hash, ps[9])) && ps[9] <= |s|
    requires StringAt(s, ps[9]) == Ok((e.osuFile, ps[10]))
    ensures EntryNamesAt(s, ps[1]) == Ok((EntryNames(e.artist, e.title, e.creator, e.difficulty, e.hash), ps[10]))
  {
  }

  /** The fields after the timing points read back as EntryTailAt's result. */
  lemma TailFollow(s: seq<byte>, ps: seq<nat>, e: Entry, version: int)
    requires |ps| == 22 && ps[13] <= |s|
    requires SkipAt(s, ps[13], 23) == Ok(ps[14]) && ps[14] <= |s|
    requires StringAt(s, ps[14]) == Ok((e.source, ps[15])) && ps[15] <= |s|
    requires StringAt(s, ps[15]) == Ok((e.tags, ps[16])) && ps[16] <= |s|
    requires SkipAt(s, ps[16], 2) == Ok(ps[17]) && ps[17] <= |s|
    requires StringAt(s, ps[17]) == Ok((e.titleFont, ps[18])) && ps[18] <= |s|
    requires SkipAt(s, ps[18], 10) == Ok(ps[19]) && ps[19] <= |s|
    requires StringAt(s, ps[19]) == Ok((e.folderName, ps[20])) && ps[20] <= |s|
    requires SkipAt(s, ps[20], TrailerWidth(version)) == Ok(ps[21])
    ensures EntryTailAt(s, ps[13], version) == Ok((e.folderName, ps[21]))
  {
  }

  /** The sections read back one after the other give EntryAt its result. */
  lemma EntryFollow(s: seq<byte>, ps: seq<nat>, e: Entry, version: int, start: nat, end: nat)
    requires |ps| == 22 && ps[0] == start && ps[21] == end
    requires ps[0] <= |s| && ps[1] <= |s| && ps[10] <= |s| && ps[11] <= |s| && ps[12] <= |s| && ps[13] <= |s|
    requires SkipAt(s, ps[0], if version < VERSION_WITHOUT_ENTRY_SIZE then 4 else 0) == Ok(ps[1])
    requires EntryNamesAt(s, ps[1]) == Ok((EntryNames(e.artist, e.title, e.creator, e.difficulty, e.hash), ps[10]))
    requires DifficultyAt(s, ps[10], version) == if MapsFresh(e.starRatings) then Ok(ps[11]) else Err(DuplicateKey)
    requires SkipAt(s, ps[11], 12) == Ok(ps[12])
    requires TimingPointsAt(s, ps[12]) == Ok(ps[13])
    requires EntryTailAt(s, ps[13], version) == Ok((e.folderName, ps[21]))
    ensures MapsFresh(e.starRatings) ==> EntryAt(s, start, version) == Ok((Record(e), end))
    ensures !MapsFresh(e.starRatings) ==> EntryAt(s, start, version) == Err(DuplicateKey)
  {
  }

  /** The nine strings after the entry size, laid out, read back as EntryNamesAt's result. */
  lemma NamesRoundTrip(s: seq<byte>, p: nat, fs: seq<Field>, version: int, e: Entry)
    requires FieldsOk(fs, version) && At(s, p, Cat(FieldParts(fs, version))) && |fs| == 21
    requires fs[1] == Str(e.artist) && fs[2] == Str(e.artistUnicode) && fs[3] == Str(e.title)
    requires fs[4] == Str(e.titleUnicode) && fs[5] == Str(e.creator) && fs[6] == Str(e.difficulty)
    requires fs[7] == Str(e.audioFile) && fs[8] == Str(e.hash) && fs[9] == Str(e.osuFile)
    ensures var ps := Offsets(p, FieldParts(fs, version));
      ps[1] <= |s| &&
      EntryNamesAt(s, ps[1]) == Ok((EntryNames(e.artist, e.title, e.creator, e.difficulty, e.hash), ps[10]))
  {
    StringPart(s, p, fs, version, 1);
    StringPart(s, p, fs, version, 2);
    StringPart(s, p, fs, version, 3);
    StringPart(s, p, fs, version, 4);
    StringPart(s, p, fs, version, 5);
    StringPart(s, p, fs, version, 6);
    StringPart(s, p, fs, version, 7);
    StringPart(s, p, fs, version, 8);
    StringPart(s, p, fs, version, 9);
    NamesFollow(s, Offsets(p, FieldParts(fs, version)), e);
  }

  /** The fields after the timing points, laid out, read back as EntryTailAt's result. */
  lemma TailRoundTrip(s: seq<byte>, p: nat, fs: seq<Field>, version: int, e: Entry)
    requires FieldsOk(fs, version) && At(s, p, Cat(FieldParts(fs, version))) && |fs| == 21
    requires fs[13].Raw? && |fs[13].bytes| == 23 && fs[14] == Str(e.source) && fs[15] == Str(e.tags)
    requires fs[16].Raw? && |fs[16].bytes| == 2 && fs[17] == Str(e.titleFont)
    requires fs[18].Raw? && |fs[18].bytes| == 10 && fs[19] == Str(e.folderName)
    requires fs[20].Raw? && |fs[20].bytes| == TrailerWidth(version)
    ensures var ps := Offsets(p, FieldParts(fs, version));
      ps[13] <= |s| && EntryTailAt(s, ps[13], version) == Ok((e.folderName, ps[21]))
  {
    SkipPart(s, p, fs, version, 13);
    StringPart(s, p, fs, version, 14);
    StringPart(s, p, fs, version, 15);
    SkipPart(s, p, fs, version, 16);
    StringPart(s, p, fs, version, 17);
    SkipPart(s, p, fs, version, 18);
    StringPart(s, p, fs, version, 19);
    SkipPart(s, p, fs, version, 20);
    TailFollow(s, Offsets(p, FieldParts(fs, version)), e, version);
  }

  /** An entry's fields laid out one after the other read back as its record, ending after the last. */
  lemma FieldsRoundTrip(s: seq<byte>, p: nat, fs: seq<Field>, version: int, e: Entry, end: nat)
    requires FieldsOk(fs, version) && At(s, p, Cat(FieldParts(fs, version))) && |fs| == 21
    requires end == p + |Cat(FieldParts(fs, version))|
    requires fs[0].Raw? && |fs[0].bytes| == (if version < VERSION_WITHOUT_ENTRY_SIZE then 4 else 0)
    requires fs[1] == Str(e.artist) && fs[2] == Str(e.artistUnicode) && fs[3] == Str(e.title)
    requires fs[4] == Str(e.titleUnicode) && fs[5] == Str(e.creator) && fs[6] == Str(e.difficulty)
    requires fs[7] == Str(e.audioFile) && fs[8] == Str(e.hash) && fs[9] == Str(e.osuFile)
    requires fs[10] == Difficulty(e.stats, e.starRatings) && |e.stats| == 15 + StatsWidth(version) + 8
    requires |e.starRatings| == (if version < VERSION_FLOAT_STATS then 0 else 4)
    requires fs[11].Raw? && |fs[11].bytes| == 12 && fs[12].Points?
    requires fs[13].Raw? && |fs[13].bytes| == 23 && fs[14] == Str(e.source) && fs[15] == Str(e.tags)
    requires fs[16].Raw? && |fs[16].bytes| == 2 && fs[17] == Str(e.titleFont)
    requires fs[18].Raw? && |fs[18].bytes| == 10 && fs[19] == Str(e.folderName)
    requires fs[20].Raw? && |fs[20].bytes| == TrailerWidth(version)
    ensures MapsFresh(e.starRatings) ==> EntryAt(s, p, version) == Ok((Record(e), end))
    ensures !MapsFresh(e.starRatings) ==> EntryAt(s, p, version) == Err(DuplicateKey)
  {
    var parts := FieldParts(fs, version);
    SkipPart(s, p, fs, version, 0);
    NamesRoundTrip(s, p, fs, version, e);
    DifficultyPart(s, p, fs, version, 10);
    SkipPart(s, p, fs, version, 11);
    TimingPart(s, p, fs, version, 12);
    TailRoundTrip(s, p, fs, version, e);
    AtPart(s, p, parts, 20);
    EntryFollow(s, Offsets(p, parts), e, version, p, end);
  }

  /** The name fields of an entry sit at the places FieldsRoundTrip reads them from. */
  lemma FieldsShape(e: Entry)
    ensures |Fields(e)| == 21 && Fields(e)[0] == Raw(e.entrySize)
    ensures Fields(e)[1] == Str(e.artist) && Fields(e)[2] == Str(e.artistUnicode) && Fields(e)[3] == Str(e.title)
    ensures Fields(e)[4] == Str(e.titleUnicode) && Fields(e)[5] == Str(e.creator) && Fields(e)[6] == Str(e.difficulty)
    ensures Fields(e)[7] == Str(e.audioFile) && Fields(e)[8] == Str(e.hash) && Fields(e)[9] == Str(e.osuFile)
  {
  }

  /** The rest of the field list of a well-formed entry, at the widths TailRoundTrip reads. */
  lemma FieldsTailShape(e: Entry, version: int)
    requires WidthsOk(e, version)
    ensures Fields(e)[10] == Difficulty(e.stats, e.starRatings) && |e.stats| == 15 + StatsWidth(version) + 8
    ensures |e.starRatings| == (if version < VERSION_FLOAT_STATS then 0 else 4)
    ensures Fields(e)[11].Raw? && |Fields(e)[11].bytes| == 12 && Fields(e)[12].Points?
    ensures Fields(e)[13].Raw? && |Fields(e)[13].bytes| == 23 && Fields(e)[14] == Str(e.source)
    ensures Fields(e)[15] == Str(e.tags) && Fields(e)[16].Raw? && |Fields(e)[16].bytes| == 2
    ensures Fields(e)[17] == Str(e.titleFont) && Fields(e)[18].Raw? && |Fields(e)[18].bytes| == 10
    ensures Fields(e)[19] == Str(e.folderName) && Fields(e)[20].Raw? && |Fields(e)[20].bytes| == TrailerWidth(version)
  {
  }

  /** EntryAt (and so ReadEntry) inverts the entry writer: it yields the entry's record and ends after the entry,
      unless a star-rating map repeats a key. */
  lemma EntryRoundTrip(s: seq<byte>, p: nat, e: Entry, version: int, end: nat)
    requires EntryOk(e, version) && At(s, p, EntryBytes(e, version))
    requires end == p + |EntryBytes(e, version)|
    ensures MapsFresh(e.starRatings) ==> EntryAt(s, p, version) == Ok((Record(e), end))
    ensures !MapsFresh(e.starRatings) ==> EntryAt(s, p, version) == Err(DuplicateKey)
  {
    FieldsShape(e);
    FieldsTailShape(e, version);
    FieldsRoundTrip(s, p, Fields(e), version, e, end);
  }

  // ---------------------------------------------------------------- the entries of an index

  /** Entries the writer can lay out at this version. */
  predicate EntriesOk(es: seq<Entry>, version: int) {
    forall i | 0 <= i < |es| :: EntryOk(es[i], version)
  }

  /** No entry repeats a mods key in one of its star-rating maps. */
  predicate EntriesFresh(es: seq<Entry>) {
    forall i | 0 <= i < |es| :: MapsFresh(es[i].starRatings)
  }

  /** The entries one after the other, as osu!stable writes them after the header. */
  function EntriesBytes(es: seq<Entry>, version: int): seq<byte>
    requires EntriesOk(es, version)
    decreases |es|
  {
    if es == [] then [] else EntryBytes(es[0], version) + EntriesBytes(es[1..], version)
  }

  /** The records the reader yields for the entries, in order. */
  function Records(es: seq<Entry>): (r: seq<BeatmapInfo>)
    ensures |r| == |es| && forall i | 0 <= i < |es| :: r[i] == Record(es[i])
  {
    seq(|es|, i requires 0 <= i < |es| => Record(es[i]))
  }

  /** Splitting off the first entry keeps the rest writable, and freshness holds for all exactly when
      it holds for the first and the rest. */
  lemma EntriesTail(es: seq<Entry>, version: int)
    requires |es| > 0 && EntriesOk(es, version)
    ensures EntryOk(es[0], version) && EntriesOk(es[1..], version)
    ensures EntriesFresh(es) <==> MapsFresh(es[0].starRatings) && EntriesFresh(es[1..])
  {
    assert forall i | 1 <= i < |es| :: es[i] == es[1..][i - 1];
  }

  /** An entry laid out in front of `rest` reads back as its record and `rest` follows it. */
  lemma EntryThenRest(s: seq<byte>, p: nat, e: Entry, rest: seq<byte>, version: int, q: nat)
    requires EntryOk(e, version) && At(s, p, EntryBytes(e, version) + rest) && q == p + |EntryBytes(e, version)|
    ensures At(s, q, rest)
    ensures MapsFresh(e.starRatings) ==> EntryAt(s, p, version) == Ok((Record(e), q))
    ensures !MapsFresh(e.starRatings) ==> EntryAt(s, p, version) == Err(DuplicateKey)
  {
    AtSplitAt(s, p, EntryBytes(e, version), rest, q);
    EntryRoundTrip(s, p, e, version, q);
  }

  /** One turn of the reader's loop over laid-out entries: the first entry's outcome and the rest's
      decode give the whole decode. */
  lemma EntriesCons(s: seq<byte>, p: nat, q: nat, es: seq<Entry>, version: int, acc: seq<BeatmapInfo>)
    requires |es| > 0 && p <= |s| && q <= |s|
    requires EntryAt(s, p, version) ==
      if MapsFresh(es[0].starRatings) then Ok((Record(es[0]), q)) else Err(DuplicateKey)
    requires EntriesFresh(es) <==> MapsFresh(es[0].starRatings) && EntriesFresh(es[1..])
    requires MapsFresh(es[0].starRatings) ==>
      EntriesFrom(s, q, version, |es| - 1, acc + [Record(es[0])]) ==
        if EntriesFresh(es[1..]) then Ok(acc + [Record(es[0])] + Records(es[1..])) else Err(DuplicateKey)
    ensures EntriesFrom(s, p, version, |es|, acc) ==
      if EntriesFresh(es) then Ok(acc + Records(es)) else Err(DuplicateKey)
  {
    assert acc + [Record(es[0])] + Records(es[1..]) == acc + Records(es);
  }

  /** The reader's loop over entries laid out one after the other yields their records in order,
      or a duplicate-key error when some entry's star-rating map repeats a key. */
  lemma {:induction false} EntriesRoundTrip(s: seq<byte>, p: nat, es: seq<Entry>, version: int,
                                            acc: seq<BeatmapInfo>)
    requires EntriesOk(es, version) && At(s, p, EntriesBytes(es, version))
    ensures p <= |s|
    ensures EntriesFrom(s, p, version, |es|, acc) ==
      if EntriesFresh(es) then Ok(acc + Records(es)) else Err(DuplicateKey)
    decreases |es|
  {
    if es == [] {
      assert acc + Records(es) == acc;
    } else {
      var q := p + |EntryBytes(es[0], version)|;
      EntriesTail(es, version);
      EntryThenRest(s, p, es[0], EntriesBytes(es[1..], version), version, q);
      if MapsFresh(es[0].starRatings) {
        EntriesRoundTrip(s, q, es[1..], version, acc + [Record(es[0])]);
      }
      EntriesCons(s, p, q, es, version, acc);
    }
  }

  /** A whole index whose header announces the laid-out entries decodes to their records in file order,
      or fails with a duplicate-key error when an entry's star-rating map repeats a key. */
  lemma IndexRoundTrip(s: seq<byte>, es: seq<Entry>, version: int, p: nat)
    requires HeaderAt(s) == Ok(((version, |es|), p))
    requires EntriesOk(es, version) && At(s, p, EntriesBytes(es, version))
    ensures IndexAt(s) == if EntriesFresh(es) then Ok(Records(es)) else Err(DuplicateKey)
  {
    EntriesRoundTrip(s, p, es, version, []);
    assert [] + Records(es) == Records(es);
  }

  // ---------------------------------------------------------------- a whole index

  /** The header fields before the beatmap count. The account flag and unlock time are kept as raw bytes. */
  datatype Header = Header(version: int, folderCount: int, unlock: seq<byte>, accountName: string)

  /** A header the writer can lay out: int32 numbers, a bool and an int64, and a writable name. */
  predicate HeaderOk(h: Header) {
    IsInt32(h.version) && IsInt32(h.folderCount) && |h.unlock| == 1 + 8 && Writable(h.accountName)
  }

  /** The header followed by the beatmap count, field by field. */
  function HeaderParts(h: Header, count: int): (r: seq<seq<byte>>)
    requires HeaderOk(h) && IsInt32(count)
    ensures |r| == 5
  {
    [Int32Bytes(h.version), Int32Bytes(h.folderCount), h.unlock, StringBytes(h.accountName), Int32Bytes(count)]
  }

  /** A header laid out at the start of `s` reads back as its version and count, ending after the count. */
  lemma HeaderRoundTrip(s: seq<byte>, h: Header, count: int)
    requires HeaderOk(h) && IsInt32(count) && At(s, 0, Cat(HeaderParts(h, count)))
    ensures HeaderAt(s) == Ok(((h.version, count), |Cat(HeaderParts(h, count))|))
  {
    var parts := HeaderParts(h, count);
    var ps := Offsets(0, parts);
    AtPart(s, 0, parts, 0);
    Int32AtRoundTrip(s, ps[0], h.version);
    AtPart(s, 0, parts, 1);
    Int32AtRoundTrip(s, ps[1], h.folderCount);
    AtPart(s, 0, parts, 2);
    FixedStep(s, ps[2], h.unlock);
    AtPart(s, 0, parts, 3);
    StringRoundTrip(s, ps[3], h.accountName);
    AtPart(s, 0, parts, 4);
    Int32AtRoundTrip(s, ps[4], count);
  }

  /** A whole osu!.db as osu!stable writes it: the header, the number of entries, then the entries. */
  function IndexBytes(h: Header, es: seq<Entry>): seq<byte>
    requires HeaderOk(h) && |es| < TWO_TO_THE_31 && EntriesOk(es, h.version)
  {
    Cat(HeaderParts(h, |es|)) + EntriesBytes(es, h.version)
  }

  /** GetBeatmaps inverts the index writer: exactly one record per entry, in file order, each with the
      entry's artist, title, creator, difficulty, hash and folder name; or a duplicate-key error when an
      entry's star-rating map repeats a key. */
  lemma IndexFileRoundTrip(h: Header, es: seq<Entry>)
    requires HeaderOk(h) && |es| < TWO_TO_THE_31 && EntriesOk(es, h.version)
    ensures IndexAt(IndexBytes(h, es)) == if EntriesFresh(es) then Ok(Records(es)) else Err(DuplicateKey)
  {
    var s := IndexBytes(h, es);
    var head := Cat(HeaderParts(h, |es|));
    AtSlice(s, 0, s);
    AtSplitAt(s, 0, head, EntriesBytes(es, h.version), |head|);
    HeaderRoundTrip(s, h, |es|);
    IndexRoundTrip(s, es, h.version, |head|);
  }
}
