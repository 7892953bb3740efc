/**
 * Encoders for the parts of the legacy beatmap index whose layout the
 * decoder in BeatmapIndex checks beyond plain widths: the star-rating maps
 * and the timing-point block. The round-trip lemmas show what the decoder
 * accepts, what it yields and where it stops.
 */
module IndexEncoding {
  import opened Wrappers
  import opened Bytes
  import opened ValueCodec
  import opened BeatmapIndex

  /** One entry of a star-rating map: the mods key and the raw rating value. */
  datatype Rating = Rating(mods: int, value: seq<byte>)

  predicate RatingOk(x: Rating, version: int) {
    IsInt32(x.mods) && |x.value| == RatingWidth(version)
  }

  predicate RatingsOk(xs: seq<Rating>, version: int) {
    forall i | 0 <= i < |xs| :: RatingOk(xs[i], version)
  }

  /** No key of `xs` repeats, and none is already in `acc`. */
  predicate Fresh(acc: map<int, seq<byte>>, xs: seq<Rating>) {
    (forall i | 0 <= i < |xs| :: xs[i].mods !in acc) &&
    (forall i, j | 0 <= i < j < |xs| :: xs[i].mods != xs[j].mods)
  }

  /** The map ReadStarRatings builds: `acc` with each pair added in order. */
  function Insert(acc: map<int, seq<byte>>, xs: seq<Rating>): map<int, seq<byte>>
    decreases |xs|
  {
    if xs == [] then acc else Insert(acc[xs[0].mods := xs[0].value], xs[1..])
  }

  /** One star-rating entry as written: 0x08, the int32 key, the value marker, the value. */
  function RatingBytes(x: Rating, version: int): (r: seq<byte>)
    requires RatingOk(x, version)
  {
    [INT_PAIR_MARKER] + (Int32Bytes(x.mods) + ([RatingMarker(version)] + x.value))
  }

  function RatingsBytes(xs: seq<Rating>, version: int): (r: seq<byte>)
    requires RatingsOk(xs, version)
  {
    if xs == [] then [] else RatingBytes(xs[0], version) + RatingsBytes(xs[1..], version)
  }

  /** A whole star-rating map: the int32 count, then the entries. */
  function RatingMapBytes(xs: seq<Rating>, version: int): (r: seq<byte>)
    requires |xs| < TWO_TO_THE_31 && RatingsOk(xs, version)
  {
    Int32Bytes(|xs|) + RatingsBytes(xs, version)
  }

  /** A timing-point block: the int32 count, then 17 bytes per point. */
  function TimingBytes(points: seq<seq<byte>>): (r: seq<byte>)
    requires |points| < TWO_TO_THE_31 && forall i | 0 <= i < |points| :: |points[i]| == 17
  {
    Int32Bytes(|points|) + Cat(points)
  }

  // One step of a decode over encoded bytes: the field comes back and the rest follows.

  lemma ByteStep(s: seq<byte>, p: nat, b: byte, rest: seq<byte>)
    requires At(s, p, [b] + rest)
    ensures ByteAt(s, p) == Ok((b, p + 1)) && At(s, p + 1, rest)
  {
    AtSplit(s, p, [b], rest);
  }

  lemma Int32Step(s: seq<byte>, p: nat, n: int, rest: seq<byte>)
    requires IsInt32(n) && At(s, p, Int32Bytes(n) + rest)
    ensures Int32At(s, p) == Ok((n, p + 4)) && At(s, p + 4, rest)
  {
    AtSplit(s, p, Int32Bytes(n), rest);
    Int32AtRoundTrip(s, p, n);
  }

  lemma FixedStep(s: seq<byte>, p: nat, x: seq<byte>)
    requires At(s, p, x)
    ensures SkipAt(s, p, |x|) == Ok(p + |x|) && FixedAt(s, p, |x|) == Ok((x, p + |x|))
  {
    AtSlice(s, p, x);
  }

  /** Fresh, one pair at a time. */
  lemma FreshStep(acc: map<int, seq<byte>>, xs: seq<Rating>)
    requires xs != []
    ensures Fresh(acc, xs) <==> xs[0].mods !in acc && Fresh(acc[xs[0].mods := xs[0].value], xs[1..])
  {
    var acc' := acc[xs[0].mods := xs[0].value];
    if xs[0].mods !in acc && Fresh(acc', xs[1..]) {
      forall i, j | 0 <= i < j < |xs|
        ensures xs[i].mods != xs[j].mods
      {
        if i > 0 {
          assert xs[i].mods == xs[1..][i - 1].mods && xs[j].mods == xs[1..][j - 1].mods;
        } else {
          assert xs[1..][j - 1].mods !in acc';
        }
      }
      forall i | 0 <= i < |xs|
        ensures xs[i].mods !in acc
      {
        if i > 0 {
          assert xs[1..][i - 1].mods !in acc';
        }
      }
    }
    if Fresh(acc, xs) {
      forall i | 0 <= i < |xs[1..]|
        ensures xs[1..][i].mods !in acc'
      {
        assert xs[1..][i] == xs[i + 1];
      }
      forall i, j | 0 <= i < j < |xs[1..]|
        ensures xs[1..][i].mods != xs[1..][j].mods
      {
        assert xs[1..][i] == xs[i + 1] && xs[1..][j] == xs[j + 1];
      }
    }
  }

  /** One encoded star-rating entry decodes to its key and value. */
  lemma RatingRoundTrip(s: seq<byte>, p: nat, version: int, x: Rating, rest: seq<byte>)
    requires RatingOk(x, version) && At(s, p, RatingBytes(x, version) + rest)
    ensures RatingAt(s, p, version) == Ok(((x.mods, x.value), p + 6 + |x.value|))
    ensures At(s, p + 6 + |x.value|, rest)
  {
    var marker := RatingMarker(version);
    assert RatingBytes(x, version) + rest == [INT_PAIR_MARKER] + (Int32Bytes(x.mods) + ([marker] + (x.value + rest)));
    ByteStep(s, p, INT_PAIR_MARKER, Int32Bytes(x.mods) + ([marker] + (x.value + rest)));
    Int32Step(s, p + 1, x.mods, [marker] + (x.value + rest));
    ByteStep(s, p + 5, marker, x.value + rest);
    AtSplit(s, p + 6, x.value, rest);
    FixedStep(s, p + 6, x.value);
  }

  /** The loop of ReadStarRatings over encoded pairs: it succeeds exactly when no key repeats
      (Dictionary.Add rejects a duplicate), and then yields every pair, ending after the last. */
  lemma {:induction false} RatingsFromRoundTrip(s: seq<byte>, p: nat, version: int, xs: seq<Rating>,
                                                acc: map<int, seq<byte>>)
    requires RatingsOk(xs, version) && At(s, p, RatingsBytes(xs, version))
    ensures var r := StarRatingsFrom(s, p, version, |xs|, acc);
      (r.Ok? <==> Fresh(acc, xs)) &&
      (r.Ok? ==> r.value == (Insert(acc, xs), p + |RatingsBytes(xs, version)|)) &&
      (r.Err? ==> r.error == DuplicateKey)
    decreases |xs|
  {
    if xs == [] {
      AtSlice(s, p, []);
    } else {
      var x := xs[0];
      assert RatingOk(x, version);
      var rest := RatingsBytes(xs[1..], version);
      assert RatingsBytes(xs, version) == RatingBytes(x, version) + rest;
      RatingRoundTrip(s, p, version, x, rest);
      var q := p + 6 + |x.value|;
      RatingFollows(s, p, version, |xs|, acc, Ok((x.mods, x.value)), q);
      assert |RatingsBytes(xs, version)| == 6 + |x.value| + |rest|;
      FreshStep(acc, xs);
      if x.mods !in acc {
        RatingsFromRoundTrip(s, q, version, xs[1..], acc[x.mods := x.value]);
      }
    }
  }

  /** ReadStarRatings inverts the map writer: the count, then every pair. */
  lemma StarRatingsRoundTrip(s: seq<byte>, p: nat, version: int, xs: seq<Rating>)
    requires |xs| < TWO_TO_THE_31 && RatingsOk(xs, version) && At(s, p, RatingMapBytes(xs, version))
    ensures var r := StarRatingsAt(s, p, version);
      (r.Ok? <==> Fresh(map[], xs)) &&
      (r.Ok? ==> r.value == (Insert(map[], xs), p + |RatingMapBytes(xs, version)|)) &&
      (r.Err? ==> r.error == DuplicateKey)
  {
    Int32Step(s, p, |xs|, RatingsBytes(xs, version));
    RatingsFromRoundTrip(s, p + 4, version, xs, map[]);
  }

  /** The decoded map holds the old entries and exactly the pairs added. */
  lemma {:induction false} InsertContents(acc: map<int, seq<byte>>, xs: seq<Rating>)
    requires Fresh(acc, xs)
    ensures forall k :: k in Insert(acc, xs) <==> k in acc || exists i | 0 <= i < |xs| :: xs[i].mods == k
    ensures forall k | k in acc :: Insert(acc, xs)[k] == acc[k]
    ensures forall i | 0 <= i < |xs| :: Insert(acc, xs)[xs[i].mods] == xs[i].value
    decreases |xs|
  {
    if xs != [] {
      var acc' := acc[xs[0].mods := xs[0].value];
      FreshStep(acc, xs);
      InsertContents(acc', xs[1..]);
      forall i | 0 <= i < |xs|
        ensures xs[i].mods in Insert(acc, xs) && Insert(acc, xs)[xs[i].mods] == xs[i].value
      {
        if i > 0 {
          assert xs[i] == xs[1..][i - 1];
        } else {
          assert xs[0].mods in acc';
        }
      }
      forall k
        ensures k in Insert(acc, xs) <==> k in acc || exists i | 0 <= i < |xs| :: xs[i].mods == k
      {
        if exists i | 0 <= i < |xs[1..]| :: xs[1..][i].mods == k {
          var i :| 0 <= i < |xs[1..]| && xs[1..][i].mods == k;
          assert xs[i + 1].mods == k;
        }
        if exists i | 0 <= i < |xs| :: xs[i].mods == k {
          var i :| 0 <= i < |xs| && xs[i].mods == k;
          if i > 0 {
            assert xs[1..][i - 1].mods == k;
          }
        }
      }
    }
  }

  /** A first star-rating entry with the wrong leading marker fails whatever follows it, and so
      does one with the wrong value marker for the file's version. */
  lemma RatingMarkerErrors(s: seq<byte>, p: nat, version: int, remaining: nat, acc: map<int, seq<byte>>)
    requires p + 6 <= |s| && remaining > 0
    ensures s[p] != INT_PAIR_MARKER ==> StarRatingsFrom(s, p, version, remaining, acc) == Err(ExpectedIntPair)
    ensures s[p] == INT_PAIR_MARKER && s[p + 5] != RatingMarker(version) ==>
      StarRatingsFrom(s, p, version, remaining, acc) ==
        Err(if version < VERSION_SINGLE_RATINGS then ExpectedDouble else ExpectedFloat)
  {
  }

  lemma {:induction false} CatLength(points: seq<seq<byte>>)
    requires forall i | 0 <= i < |points| :: |points[i]| == 17
    ensures |Cat(points)| == 17 * |points|
    decreases |points|
  {
    if points != [] {
      CatLength(points[1..]);
    }
  }

  /** The timing-point block is consumed whole: the count and 17 bytes per point. */
  lemma TimingRoundTrip(s: seq<byte>, p: nat, points: seq<seq<byte>>)
    requires |points| < TWO_TO_THE_31 && forall i | 0 <= i < |points| :: |points[i]| == 17
    requires At(s, p, TimingBytes(points))
    ensures TimingPointsAt(s, p) == Ok(p + 4 + 17 * |points|)
  {
    Int32Step(s, p, |points|, Cat(points));
    CatLength(points);
    FixedStep(s, p + 4, Cat(points));
  }
}
