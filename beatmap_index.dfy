/**
 * The layout of the legacy beatmap index (osu!.db) as StableDatabaseReader
 * decodes it: a header, then `beatmapCount` entries whose layout depends on
 * the file's version. Only six strings of each entry are kept; every other
 * field is read, to stay aligned, and dropped.
 */
module BeatmapIndex {
  import opened Wrappers
  import opened Bytes
  import opened ValueCodec

  /** Before this version every entry starts with an int32 that the reader drops. */
  const VERSION_WITHOUT_ENTRY_SIZE: int := 20191106
  /** From this version on, difficulty stats are singles and four star-rating maps follow. */
  const VERSION_FLOAT_STATS: int := 20140609
  /** From this version on, star ratings are singles tagged 0x0c; before, doubles tagged 0x0d. */
  const VERSION_SINGLE_RATINGS: int := 20250107

  const INT_PAIR_MARKER: byte := 0x08
  const DOUBLE_MARKER: byte := 0x0d
  const FLOAT_MARKER: byte := 0x0c

  /** The record the reader yields per entry. */
  datatype BeatmapInfo = BeatmapInfo(
    hash: string,
    folderName: string,
    title: string,
    artist: string,
    creator: string,
    difficulty: string)

  /** The strings kept from the head of an entry. */
  datatype EntryNames = EntryNames(artist: string, title: string, creator: string, difficulty: string, hash: string)

  /** Width of the four difficulty stats: bytes before VERSION_FLOAT_STATS, singles after. */
  function StatsWidth(version: int): nat {
    if version < VERSION_FLOAT_STATS then 4 else 16
  }

  /** Width of a star rating's value: a double before VERSION_SINGLE_RATINGS, a single after. */
  function RatingWidth(version: int): nat {
    if version < VERSION_SINGLE_RATINGS then 8 else 4
  }

  /** The marker in front of a star rating's value. */
  function RatingMarker(version: int): byte {
    if version < VERSION_SINGLE_RATINGS then DOUBLE_MARKER else FLOAT_MARKER
  }

  /** The error a wrong value marker raises. */
  function RatingMarkerError(version: int): Error {
    if version < VERSION_SINGLE_RATINGS then ExpectedDouble else ExpectedFloat
  }

  /** Width of the fields after the folder name: last checked (8), five flags (5), the
      unknown int16 before VERSION_FLOAT_STATS (2), last modification time (4), scroll speed (1). */
  function TrailerWidth(version: int): nat {
    if version < VERSION_FLOAT_STATS then 20 else 18
  }

  /** The nine strings at the head of an entry; the unicode names, the audio and .osu file names are dropped. */
  function EntryNamesAt(s: seq<byte>, p: nat): (r: Result<(EntryNames, nat)>)
    requires p <= |s|
    ensures r.Ok? ==> p < r.value.1 <= |s|
  {
    var (artist, p1) :- StringAt(s, p);
    var (_, p2) :- StringAt(s, p1);
    var (title, p3) :- StringAt(s, p2);
    var (_, p4) :- StringAt(s, p3);
    var (creator, p5) :- StringAt(s, p4);
    var (difficulty, p6) :- StringAt(s, p5);
    var (_, p7) :- StringAt(s, p6);
    var (hash, p8) :- StringAt(s, p7);
    var (_, p9) :- StringAt(s, p8);
    Ok((EntryNames(artist, title, creator, difficulty, hash), p9))
  }

  /** One star-rating entry: 0x08, the int32 mods key, the value marker of the version, the
      value (kept as its raw bytes). */
  function RatingAt(s: seq<byte>, p: nat, version: int): (r: Result<((int, seq<byte>), nat)>)
    requires p <= |s|
    ensures r.Ok? ==> p < r.value.1 <= |s| && |r.value.0.1| == RatingWidth(version)
  {
    var (marker, p1) :- ByteAt(s, p);
    if marker != INT_PAIR_MARKER then Err(ExpectedIntPair)
    else
      var (mods, p2) :- Int32At(s, p1);
      var (valueMarker, p3) :- ByteAt(s, p2);
      if valueMarker != RatingMarker(version) then Err(RatingMarkerError(version))
      else
        var (value, p4) :- FixedAt(s, p3, RatingWidth(version));
        Ok(((mods, value), p4))
  }

  /** The remaining `remaining` entries of one star-rating map, added to `acc` (ReadStarRatings'
      loop); Dictionary.Add rejects a key already present, after its value has been read. */
  function StarRatingsFrom(s: seq<byte>, p: nat, version: int, remaining: nat, acc: map<int, seq<byte>>)
    : (r: Result<(map<int, seq<byte>>, nat)>)
    requires p <= |s|
    ensures r.Ok? ==> p <= r.value.1 <= |s|
    decreases remaining
  {
    if remaining == 0 then Ok((acc, p))
    else
      var ((mods, value), q) :- RatingAt(s, p, version);
      if mods in acc then Err(DuplicateKey)
      else StarRatingsFrom(s, q, version, remaining - 1, acc[mods := value])
  }

  /** One entry of a star-rating map, read with outcome `rating` ending at `q`: its failure, a
      repeated key, or the rest of the map after it. */
  lemma RatingFollows(s: seq<byte>, p: nat, version: int, remaining: nat, acc: map<int, seq<byte>>,
                      rating: Result<(int, seq<byte>)>, q: nat)
    requires p <= |s| && remaining > 0
    requires match RatingAt(s, p, version)
      case Ok((v, q')) => rating == Ok(v) && q == q'
      case Err(e) => rating == Err(e)
    ensures rating.Err? ==> StarRatingsFrom(s, p, version, remaining, acc) == Err(rating.error)
    ensures rating.Ok? ==> q <= |s|
    ensures rating.Ok? ==>
      StarRatingsFrom(s, p, version, remaining, acc) ==
        if rating.value.0 in acc then Err(DuplicateKey)
        else StarRatingsFrom(s, q, version, remaining - 1, acc[rating.value.0 := rating.value.1])
  {
  }

  /** ReadStarRatings: an int32 count, then that many (0x08, int32 mods, marker, value) entries.
      A negative count is rejected by the Dictionary constructor. */
  function StarRatingsAt(s: seq<byte>, p: nat, version: int): (r: Result<(map<int, seq<byte>>, nat)>)
    requires p <= |s|
    ensures r.Ok? ==> p < r.value.1 <= |s|
  {
    var (count, p1) :- Int32At(s, p);
    if count < 0 then Err(ArgumentOutOfRange)
    else StarRatingsFrom(s, p1, version, count, map[])
  }

  /** Ranked status, object counts, last modified, the four stats, slider velocity and, from
      VERSION_FLOAT_STATS on, the four star-rating maps (standard, taiko, catch, mania). */
  function DifficultyAt(s: seq<byte>, p: nat, version: int): (r: Result<nat>)
    requires p <= |s|
    ensures r.Ok? ==> p < r.value <= |s|
  {
    var p1 :- SkipAt(s, p, 15 + StatsWidth(version) + 8);
    if version < VERSION_FLOAT_STATS then Ok(p1)
    else
      var (_, p2) :- StarRatingsAt(s, p1, version);
      var (_, p3) :- StarRatingsAt(s, p2, version);
      var (_, p4) :- StarRatingsAt(s, p3, version);
      var (_, p5) :- StarRatingsAt(s, p4, version);
      Ok(p5)
  }

  /** The timing points: an int32 count, then 17 bytes (double, double, byte) per point; a
      non-positive count reads nothing more. */
  function TimingPointsAt(s: seq<byte>, p: nat): (r: Result<nat>)
    requires p <= |s|
    ensures r.Ok? ==> p + 4 <= r.value <= |s|
  {
    var (count, p1) :- Int32At(s, p);
    SkipAt(s, p1, 17 * (if count < 0 then 0 else count))
  }

  /** Everything after the timing points; only the folder name is kept. */
  function EntryTailAt(s: seq<byte>, p: nat, version: int): (r: Result<(string, nat)>)
    requires p <= |s|
    ensures r.Ok? ==> p < r.value.1 <= |s|
  {
    // difficulty, beatmap and thread id, four grades, local offset, stack leniency, mode
    var p1 :- SkipAt(s, p, 23);
    var (_, p2) :- StringAt(s, p1);   // song source
    var (_, p3) :- StringAt(s, p2);   // song tags
    var p4 :- SkipAt(s, p3, 2);       // online offset
    var (_, p5) :- StringAt(s, p4);   // title font
    var p6 :- SkipAt(s, p5, 10);      // is unplayed, last played, is osz2
    var (folderName, p7) :- StringAt(s, p6);
    var p8 :- SkipAt(s, p7, TrailerWidth(version));
    Ok((folderName, p8))
  }

  /** One entry of the index. */
  function EntryAt(s: seq<byte>, p: nat, version: int): (r: Result<(BeatmapInfo, nat)>)
    requires p <= |s|
    ensures r.Ok? ==> p < r.value.1 <= |s|
  {
    var p0 :- SkipAt(s, p, if version < VERSION_WITHOUT_ENTRY_SIZE then 4 else 0);
    var (names, p1) :- EntryNamesAt(s, p0);
    var p2 :- DifficultyAt(s, p1, version);
    var p3 :- SkipAt(s, p2, 12);      // drain, total and preview time
    var p4 :- TimingPointsAt(s, p3);
    var (folderName, p5) :- EntryTailAt(s, p4, version);
    Ok((BeatmapInfo(names.hash, folderName, names.title, names.artist, names.creator, names.difficulty), p5))
  }

  /** The remaining `remaining` entries, appended to `acc` (the reader's loop). */
  function EntriesFrom(s: seq<byte>, p: nat, version: int, remaining: nat, acc: seq<BeatmapInfo>)
    : (r: Result<seq<BeatmapInfo>>)
    requires p <= |s|
    ensures r.Ok? ==> |r.value| == |acc| + remaining
    decreases remaining
  {
    if remaining == 0 then Ok(acc)
    else
      var (entry, q) :- EntryAt(s, p, version);
      EntriesFrom(s, q, version, remaining - 1, acc + [entry])
  }

  /** One turn of the reader's loop, the next entry read with outcome `entry` ending at `q`: the
      entry is appended and the rest decoded from `q`, or its error ends the decode. */
  lemma EntriesStep(s: seq<byte>, p: nat, version: int, remaining: nat, acc: seq<BeatmapInfo>,
                    entry: Result<BeatmapInfo>, q: nat)
    requires p <= |s| && remaining > 0
    requires match EntryAt(s, p, version)
      case Ok((v, q')) => entry == Ok(v) && q == q'
      case Err(e) => entry == Err(e)
    ensures entry.Err? ==> EntriesFrom(s, p, version, remaining, acc) == Err(entry.error)
    ensures entry.Ok? ==> q <= |s|
    ensures entry.Ok? ==>
      EntriesFrom(s, p, version, remaining, acc) == EntriesFrom(s, q, version, remaining - 1, acc + [entry.value])
  {
  }

  /** The header: version, folder count, account unlocked, unlock time, account name and
      beatmap count; yields the version, the count and where the first entry starts. */
  function HeaderAt(s: seq<byte>): (r: Result<((int, int), nat)>)
    ensures r.Ok? ==> IsInt32(r.value.0.0) && IsInt32(r.value.0.1) && 22 <= r.value.1 <= |s|
  {
    var (version, p1) :- Int32At(s, 0);
    var (_, p2) :- Int32At(s, p1);    // folder count
    var p3 :- SkipAt(s, p2, 1 + 8);   // account unlocked, unlock time
    var (_, p4) :- StringAt(s, p3);   // account name
    var (count, p5) :- Int32At(s, p4);
    Ok(((version, count), p5))
  }

  /** The whole index; a negative beatmap count yields no entries. */
  function IndexAt(s: seq<byte>): (r: Result<seq<BeatmapInfo>>)
  {
    var ((version, count), p) :- HeaderAt(s);
    EntriesFrom(s, p, version, if count < 0 then 0 else count, [])
  }

  /** A successful decode yields exactly `beatmapCount` records, none for a negative count. */
  lemma IndexCount(s: seq<byte>)
    requires IndexAt(s).Ok?
    ensures HeaderAt(s).Ok?
    ensures var count := HeaderAt(s).value.0.1;
      |IndexAt(s).value| == if count < 0 then 0 else count
  {
  }
}
