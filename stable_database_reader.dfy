/**
 * StableDatabaseReader: the imperative reader of the legacy beatmap index.
 * Every method advances a ByteReader and is proved to compute what the
 * matching decoder of BeatmapIndex describes; GetBeatmaps is proved equal to
 * IndexAt on the file's bytes.
 */
module StableDatabaseReader {
  import opened Wrappers
  import opened Bytes
  import opened ValueCodec
  import opened BinaryIO
  import opened BeatmapIndex
  import Utf8
  import Paths

  /** ReadULEB128: `result |= (b & 0x7F) << shift`, shift growing by 7, until a byte below 0x80. */
  method ReadULEB128(r: ByteReader) returns (res: Result<int>)
    requires r.Valid()
    modifies r
    ensures r.Valid() && Follows(res, r.pos, UlebAt(r.data[..], old(r.pos)))
  {
    var result: nat := 0;
    var shift: nat := 0;
    while true
      invariant r.Valid() && result < TWO_TO_THE_32
      invariant UlebAt(r.data[..], old(r.pos)) == UlebFrom(r.data[..], r.pos, shift, result)
      decreases r.data.Length - r.pos
    {
      var b := r.ReadByte();
      if b.Err? {
        return Err(b.error);
      }
      result := Accumulate(result, b.value, shift);
      if b.value < 0x80 {
        return Ok(ToInt32(result));
      }
      shift := shift + 7;
    }
  }

  /** ReadString: 0x00 is the empty string, 0x0B a ULEB128 length and that many UTF-8 bytes,
      any other marker InvalidDataException. */
  method ReadString(r: ByteReader) returns (res: Result<string>)
    requires r.Valid()
    modifies r
    ensures r.Valid() && Follows(res, r.pos, StringAt(r.data[..], old(r.pos)))
  {
    var indicator := r.ReadByte();
    if indicator.Err? {
      return Err(indicator.error);
    }
    if indicator.value == STRING_ABSENT {
      return Ok([]);
    }
    if indicator.value != STRING_PRESENT {
      return Err(InvalidStringFormat);
    }
    var length := ReadULEB128(r);
    if length.Err? {
      return Err(length.error);
    }
    var data := r.ReadBytes(length.value);
    if data.Err? {
      return Err(data.error);
    }
    return Ok(Utf8.Decode(data.value));
  }

  /** ReadStarRatings: an int32 count, then that many (0x08, int32 mods, marker, value)
      entries added to a dictionary; the value is kept as its raw bytes. */
  method ReadStarRatings(r: ByteReader, version: int) returns (res: Result<map<int, seq<byte>>>)
    requires r.Valid()
    modifies r
    ensures r.Valid() && Follows(res, r.pos, StarRatingsAt(r.data[..], old(r.pos), version))
  {
    var count := r.ReadInt32();
    if count.Err? {
      return Err(count.error);
    }
    if count.value < 0 {
      return Err(ArgumentOutOfRange);
    }
    res := ReadRatings(r, version, count.value);
  }

  /** ReadStarRatings' loop: `count` entries, each added to the dictionary, which rejects a key
      it already holds. */
  method ReadRatings(r: ByteReader, version: int, count: nat) returns (res: Result<map<int, seq<byte>>>)
    requires r.Valid()
    modifies r
    ensures r.Valid() && Follows(res, r.pos, StarRatingsFrom(r.data[..], old(r.pos), version, count, map[]))
  {
    ghost var s := r.data[..];
    ghost var spec := StarRatingsFrom(s, r.pos, version, count, map[]);
    var dict: map<int, seq<byte>> := map[];
    for i := 0 to count
      invariant r.Valid() && r.data[..] == s
      invariant spec == StarRatingsFrom(s, r.pos, version, count - i, dict)
    {
      ghost var p := r.pos;
      var rating := ReadRating(r, version);
      RatingFollows(s, p, version, count - i, dict, rating, r.pos);
      if rating.Err? {
        return Err(rating.error);
      }
      var mods, value := rating.value.0, rating.value.1;
      if mods in dict {
        return Err(DuplicateKey);
      }
      dict := dict[mods := value];
    }
    return Ok(dict);
  }

  /** One pass of ReadStarRatings' loop up to Dictionary.Add: the two markers are checked, the
      key and the value read. */
  method ReadRating(r: ByteReader, version: int) returns (res: Result<(int, seq<byte>)>)
    requires r.Valid()
    modifies r
    ensures r.Valid() && Follows(res, r.pos, RatingAt(r.data[..], old(r.pos), version))
  {
    var indicator1 := r.ReadByte();
    if indicator1.Err? {
      return Err(indicator1.error);
    }
    if indicator1.value != INT_PAIR_MARKER {
      return Err(ExpectedIntPair);
    }
    var mods := r.ReadInt32();
    if mods.Err? {
      return Err(mods.error);
    }
    var indicator2 := r.ReadByte();
    if indicator2.Err? {
      return Err(indicator2.error);
    }
    if indicator2.value != RatingMarker(version) {
      return Err(RatingMarkerError(version));
    }
    var value := r.ReadFixed(RatingWidth(version));
    if value.Err? {
      return Err(value.error);
    }
    return Ok((mods.value, value.value));
  }

  /** The nine strings at the head of an entry. */
  method ReadNames(r: ByteReader) returns (res: Result<EntryNames>)
    requires r.Valid()
    modifies r
    ensures r.Valid() && Follows(res, r.pos, EntryNamesAt(r.data[..], old(r.pos)))
  {
    var artist := ReadString(r);
    if artist.Err? { return Err(artist.error); }
    var artistUnicode := ReadString(r);
    if artistUnicode.Err? { return Err(artistUnicode.error); }
    var title := ReadString(r);
    if title.Err? { return Err(title.error); }
    var titleUnicode := ReadString(r);
    if titleUnicode.Err? { return Err(titleUnicode.error); }
    var creator := ReadString(r);
    if creator.Err? { return Err(creator.error); }
    var difficulty := ReadString(r);
    if difficulty.Err? { return Err(difficulty.error); }
    var audioFile := ReadString(r);
    if audioFile.Err? { return Err(audioFile.error); }
    var hash := ReadString(r);
    if hash.Err? { return Err(hash.error); }
    var osuFile := ReadString(r);
    if osuFile.Err? { return Err(osuFile.error); }
    return Ok(EntryNames(artist.value, title.value, creator.value, difficulty.value, hash.value));
  }

  /** Ranked status, object counts, last modified, the four stats (bytes before
      VERSION_FLOAT_STATS, singles after), slider velocity, then the four star-rating maps. */
  method ReadDifficulty(r: ByteReader, version: int) returns (res: Result<()>)
    requires r.Valid()
    modifies r
    ensures r.Valid()
    ensures res.Ok? <==> DifficultyAt(r.data[..], old(r.pos), version).Ok?
    ensures res.Ok? ==> r.pos == DifficultyAt(r.data[..], old(r.pos), version).value
    ensures res.Err? ==> res.error == DifficultyAt(r.data[..], old(r.pos), version).error
  {
    ghost var s := r.data[..];
    ghost var p1 := r.pos + 15 + StatsWidth(version) + 8;
    assert p1 <= |s| ==> SkipAt(s, r.pos, 15 + StatsWidth(version) + 8) == Ok(p1);
    var head := r.Skip(1 + 2 + 2 + 2 + 8);
    if head.Err? {
      return Err(head.error);
    }
    var stats;
    if version < VERSION_FLOAT_STATS {
      stats := r.Skip(4);
    } else {
      stats := r.Skip(16);
    }
    if stats.Err? {
      return Err(stats.error);
    }
    var velocity := r.Skip(8);
    if velocity.Err? {
      return Err(velocity.error);
    }
    assert r.pos == p1 && r.data[..] == s;
    if version >= VERSION_FLOAT_STATS {
      var standard := ReadStarRatings(r, version);
      if standard.Err? {
        return Err(standard.error);
      }
      var taiko := ReadStarRatings(r, version);
      if taiko.Err? {
        return Err(taiko.error);
      }
      var catch := ReadStarRatings(r, version);
      if catch.Err? {
        return Err(catch.error);
      }
      var mania := ReadStarRatings(r, version);
      if mania.Err? {
        return Err(mania.error);
      }
    }
    return Ok(());
  }

  /** The timing points: an int32 count, then bpm (double), offset (double) and inherited (byte)
      for each; a non-positive count reads nothing more. */
  method ReadTimingPoints(r: ByteReader) returns (res: Result<()>)
    requires r.Valid()
    modifies r
    ensures r.Valid()
    ensures res.Ok? <==> TimingPointsAt(r.data[..], old(r.pos)).Ok?
    ensures res.Ok? ==> r.pos == TimingPointsAt(r.data[..], old(r.pos)).value
    ensures res.Err? ==> res.error == EndOfStream
  {
    var count := r.ReadInt32();
    if count.Err? {
      return Err(count.error);
    }
    var start := r.pos;
    var j := 0;
    while j < count.value
      invariant r.Valid() && 0 <= j && (j <= count.value || j == 0) && r.pos == start + 17 * j
    {
      var bpm := r.Skip(8);
      if bpm.Err? {
        return Err(bpm.error);
      }
      var offset := r.Skip(8);
      if offset.Err? {
        return Err(offset.error);
      }
      var inherited := r.Skip(1);
      if inherited.Err? {
        return Err(inherited.error);
      }
      j := j + 1;
    }
    return Ok(());
  }

  /** Everything after the timing points; only the folder name is kept. */
  method ReadTail(r: ByteReader, version: int) returns (res: Result<string>)
    requires r.Valid()
    modifies r
    ensures r.Valid() && Follows(res, r.pos, EntryTailAt(r.data[..], old(r.pos), version))
  {
    // difficulty, beatmap and thread id, four grades, local offset, stack leniency, mode
    var ids := r.Skip(4 + 4 + 4 + 4 + 2 + 4 + 1);
    if ids.Err? { return Err(ids.error); }
    var source := ReadString(r);
    if source.Err? { return Err(source.error); }
    var tags := ReadString(r);
    if tags.Err? { return Err(tags.error); }
    var onlineOffset := r.Skip(2);
    if onlineOffset.Err? { return Err(onlineOffset.error); }
    var titleFont := ReadString(r);
    if titleFont.Err? { return Err(titleFont.error); }
    var played := r.Skip(1 + 8 + 1);
    if played.Err? { return Err(played.error); }
    var folderName := ReadString(r);
    if folderName.Err? { return Err(folderName.error); }
    var trailer;
    if version < VERSION_FLOAT_STATS {
      trailer := r.Skip(8 + 5 + 2 + 4 + 1);
    } else {
      trailer := r.Skip(8 + 5 + 4 + 1);
    }
    if trailer.Err? { return Err(trailer.error); }
    return Ok(folderName.value);
  }

  /** One entry of the index, as the body of GetBeatmaps' loop reads it. */
  method ReadEntry(r: ByteReader, version: int) returns (res: Result<BeatmapInfo>)
    requires r.Valid()
    modifies r
    ensures r.Valid() && Follows(res, r.pos, EntryAt(r.data[..], old(r.pos), version))
  {
    if version < VERSION_WITHOUT_ENTRY_SIZE {
      var size := r.ReadInt32();
      if size.Err? { return Err(size.error); }
    }
    var names := ReadNames(r);
    if names.Err? { return Err(names.error); }
    var difficulty := ReadDifficulty(r, version);
    if difficulty.Err? { return Err(difficulty.error); }
    var times := r.Skip(4 + 4 + 4);
    if times.Err? { return Err(times.error); }
    var timing := ReadTimingPoints(r);
    if timing.Err? { return Err(timing.error); }
    var folderName := ReadTail(r, version);
    if folderName.Err? { return Err(folderName.error); }
    var n := names.value;
    return Ok(BeatmapInfo(n.hash, folderName.value, n.title, n.artist, n.creator, n.difficulty));
  }

  /** The header: version, folder count, account unlocked, unlock time, account name and
      beatmap count. */
  method ReadHeader(r: ByteReader) returns (res: Result<(int, int)>)
    requires r.Valid() && r.pos == 0
    modifies r
    ensures r.Valid() && Follows(res, r.pos, HeaderAt(r.data[..]))
  {
    var version := r.ReadInt32();
    if version.Err? { return Err(version.error); }
    var folderCount := r.ReadInt32();
    if folderCount.Err? { return Err(folderCount.error); }
    var unlocked := r.Skip(1);
    if unlocked.Err? { return Err(unlocked.error); }
    var unlockTime := r.Skip(8);
    if unlockTime.Err? { return Err(unlockTime.error); }
    var accountName := ReadString(r);
    if accountName.Err? { return Err(accountName.error); }
    var beatmapCount := r.ReadInt32();
    if beatmapCount.Err? { return Err(beatmapCount.error); }
    return Ok((version.value, beatmapCount.value));
  }

  /** GetBeatmaps' loop: `beatmapCount` entries in file order; a negative count reads none. */
  method ReadEntries(r: ByteReader, version: int, beatmapCount: int) returns (res: Result<seq<BeatmapInfo>>)
    requires r.Valid()
    modifies r
    ensures res == EntriesFrom(r.data[..], old(r.pos), version, if beatmapCount < 0 then 0 else beatmapCount, [])
  {
    ghost var s := r.data[..];
    ghost var count := if beatmapCount < 0 then 0 else beatmapCount;
    ghost var spec := EntriesFrom(s, r.pos, version, count, []);
    var beatmaps: seq<BeatmapInfo> := [];
    var i := 0;
    while i < beatmapCount
      invariant r.Valid() && r.data[..] == s && 0 <= i <= count
      invariant spec == EntriesFrom(s, r.pos, version, count - i, beatmaps)
    {
      ghost var p := r.pos;
      var entry := ReadEntry(r, version);
      EntriesStep(s, p, version, count - i, beatmaps, entry, r.pos);
      if entry.Err? { return Err(entry.error); }
      beatmaps := beatmaps + [entry.value];
      i := i + 1;
    }
    return Ok(beatmaps);
  }

  /** The reader of the legacy index in a stable installation. */
  class StableReader {
    const path: string
    const databasePath: string

    constructor (path: string)
      ensures this.path == path && databasePath == Paths.Combine(path, "osu!.db")
    {
      this.path := path;
      databasePath := Paths.Combine(path, "osu!.db");
    }

    /** GetBeatmaps on `file`, the bytes of the file at databasePath: the header, then
        beatmapCount entries in file order. */
    method GetBeatmaps(file: array<byte>) returns (res: Result<seq<BeatmapInfo>>)
      ensures res == IndexAt(file[..])
    {
      var r := new ByteReader(file);
      var header := ReadHeader(r);
      if header.Err? { return Err(header.error); }
      var (version, beatmapCount) := header.value;
      res := ReadEntries(r, version, beatmapCount);
    }
  }
}
