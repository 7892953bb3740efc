/**
 * The collection.db layout ConvertCollections writes: the int32 client
 * version, the int32 number of collections, then per collection its name,
 * the int32 number of hashes and the hashes, every string as WriteString
 * emits it. The lemmas read the header back with the reader-side int32
 * decoder and place every collection, and every hash of a hash list, at its
 * offset, where ValueCodec.StringRoundTrip reads each string back.
 */
module CollectionDb {
  import opened Wrappers
  import opened Bytes
  import opened ValueCodec

  /** The client version written at the head of collection.db. */
  const COLLECTION_VERSION: int := 20251128

  /** One collection as written: its name and its hashes in the order written. */
  datatype Listing = Listing(name: string, hashes: seq<string>)

  /** A list of strings WriteString can emit after an int32 count. */
  predicate StringsOk(xs: seq<string>) {
    |xs| < TWO_TO_THE_31 && forall i | 0 <= i < |xs| :: Writable(xs[i])
  }

  predicate ListingOk(l: Listing) {
    Writable(l.name) && StringsOk(l.hashes)
  }

  predicate ListingsOk(ls: seq<Listing>) {
    |ls| < TWO_TO_THE_31 && forall i | 0 <= i < |ls| :: ListingOk(ls[i])
  }

  // The encoder.

  function StringsBytes(xs: seq<string>): (r: seq<byte>)
    requires forall i | 0 <= i < |xs| :: Writable(xs[i])
    decreases |xs|
  {
    if xs == [] then [] else StringBytes(xs[0]) + StringsBytes(xs[1..])
  }

  function ListingBytes(l: Listing): (r: seq<byte>)
    requires ListingOk(l)
  {
    StringBytes(l.name) + (Int32Bytes(|l.hashes|) + StringsBytes(l.hashes))
  }

  function ListingsBytes(ls: seq<Listing>): (r: seq<byte>)
    requires forall i | 0 <= i < |ls| :: ListingOk(ls[i])
    decreases |ls|
  {
    if ls == [] then [] else ListingBytes(ls[0]) + ListingsBytes(ls[1..])
  }

  /** Writing one more string appends its bytes. */
  lemma {:induction false} StringsBytesAppend(xs: seq<string>, x: string)
    requires (forall i | 0 <= i < |xs| :: Writable(xs[i])) && Writable(x)
    ensures StringsBytes(xs + [x]) == StringsBytes(xs) + StringBytes(x)
    decreases |xs|
  {
    if xs != [] {
      assert (xs + [x])[1..] == xs[1..] + [x];
      StringsBytesAppend(xs[1..], x);
    } else {
      assert xs + [x] == [x];
    }
  }

  /** Writing one more collection appends its bytes. */
  lemma {:induction false} ListingsBytesAppend(ls: seq<Listing>, l: Listing)
    requires (forall i | 0 <= i < |ls| :: ListingOk(ls[i])) && ListingOk(l)
    ensures ListingsBytes(ls + [l]) == ListingsBytes(ls) + ListingBytes(l)
    decreases |ls|
  {
    if ls != [] {
      assert (ls + [l])[1..] == ls[1..] + [l];
      ListingsBytesAppend(ls[1..], l);
    } else {
      assert ls + [l] == [l];
    }
  }

  /** The whole file. */
  function CollectionDbBytes(ls: seq<Listing>): (r: seq<byte>)
    requires ListingsOk(ls)
  {
    Int32Bytes(COLLECTION_VERSION) + (Int32Bytes(|ls|) + ListingsBytes(ls))
  }

  // The strings of a hash list and the collections of a file as parts.

  function StringParts(xs: seq<string>): (r: seq<seq<byte>>)
    requires forall i | 0 <= i < |xs| :: Writable(xs[i])
    ensures |r| == |xs|
    decreases |xs|
  {
    if xs == [] then [] else [StringBytes(xs[0])] + StringParts(xs[1..])
  }

  lemma {:induction false} StringPartsOf(xs: seq<string>)
    requires forall i | 0 <= i < |xs| :: Writable(xs[i])
    ensures Cat(StringParts(xs)) == StringsBytes(xs)
    ensures forall i | 0 <= i < |xs| :: StringParts(xs)[i] == StringBytes(xs[i])
    decreases |xs|
  {
    if xs != [] {
      StringPartsOf(xs[1..]);
    }
  }

  function ListingParts(ls: seq<Listing>): (r: seq<seq<byte>>)
    requires forall i | 0 <= i < |ls| :: ListingOk(ls[i])
    ensures |r| == |ls|
    decreases |ls|
  {
    if ls == [] then [] else [ListingBytes(ls[0])] + ListingParts(ls[1..])
  }

  lemma {:induction false} ListingPartsOf(ls: seq<Listing>)
    requires forall i | 0 <= i < |ls| :: ListingOk(ls[i])
    ensures Cat(ListingParts(ls)) == ListingsBytes(ls)
    ensures forall i | 0 <= i < |ls| :: ListingParts(ls)[i] == ListingBytes(ls[i])
    decreases |ls|
  {
    if ls != [] {
      ListingPartsOf(ls[1..]);
    }
  }

  /** Where each hash of a list laid out from `p` starts; the last entry is where the list ends. */
  function HashOffsets(p: nat, xs: seq<string>): (ps: seq<nat>)
    requires forall i | 0 <= i < |xs| :: Writable(xs[i])
    ensures |ps| == |xs| + 1 && ps[0] == p
  {
    Offsets(p, StringParts(xs))
  }

  /** Where each collection starts in collection.db: after the two int32s of the header. */
  function ListingOffsets(ls: seq<Listing>): (ps: seq<nat>)
    requires forall i | 0 <= i < |ls| :: ListingOk(ls[i])
    ensures |ps| == |ls| + 1 && ps[0] == 8
  {
    Offsets(8, ListingParts(ls))
  }

  // What the file holds, and what reads back from it.

  /** The header reads back as the client version and the number of collections. */
  lemma CollectionDbHeader(ls: seq<Listing>)
    requires ListingsOk(ls)
    ensures var b := CollectionDbBytes(ls);
      Int32At(b, 0) == Ok((COLLECTION_VERSION, 4)) && Int32At(b, 4) == Ok((|ls|, 8))
  {
    var b := CollectionDbBytes(ls);
    AtSlice(b, 0, b);
    AtSplit(b, 0, Int32Bytes(COLLECTION_VERSION), Int32Bytes(|ls|) + ListingsBytes(ls));
    AtSplit(b, 4, Int32Bytes(|ls|), ListingsBytes(ls));
    Int32AtRoundTrip(b, 0, COLLECTION_VERSION);
    Int32AtRoundTrip(b, 4, |ls|);
  }

  /** After the header come the collections, up to the end of the file. */
  lemma CollectionDbBody(ls: seq<Listing>)
    requires ListingsOk(ls)
    ensures var b := CollectionDbBytes(ls);
      At(b, 8, ListingsBytes(ls)) && |b| == 8 + |ListingsBytes(ls)|
  {
    var b := CollectionDbBytes(ls);
    AtSlice(b, 0, b);
    AtSplit(b, 0, Int32Bytes(COLLECTION_VERSION), Int32Bytes(|ls|) + ListingsBytes(ls));
    AtSplit(b, 4, Int32Bytes(|ls|), ListingsBytes(ls));
  }

  /** Collections laid out from `p` sit one after the other at their offsets. */
  lemma ListingsLaid(s: seq<byte>, p: nat, ls: seq<Listing>)
    requires (forall i | 0 <= i < |ls| :: ListingOk(ls[i])) && At(s, p, ListingsBytes(ls))
    ensures var ps := Offsets(p, ListingParts(ls));
      ps[|ls|] == p + |ListingsBytes(ls)| &&
      forall i | 0 <= i < |ls| :: ps[i + 1] == ps[i] + |ListingBytes(ls[i])| && At(s, ps[i], ListingBytes(ls[i]))
  {
    ListingPartsOf(ls);
    AtEach(s, p, ListingParts(ls));
  }

  /** Every collection's bytes sit at its offset, one after the other, and the last one ends the file. */
  lemma CollectionDbEntries(ls: seq<Listing>)
    requires ListingsOk(ls)
    ensures var b := CollectionDbBytes(ls);
      var ps := ListingOffsets(ls);
      ps[|ls|] == |b| &&
      forall i | 0 <= i < |ls| :: ps[i + 1] == ps[i] + |ListingBytes(ls[i])| && At(b, ps[i], ListingBytes(ls[i]))
  {
    CollectionDbBody(ls);
    ListingsLaid(CollectionDbBytes(ls), 8, ls);
  }

  /** A collection laid out at `p`: its name, then its hash count and hashes. */
  lemma ListingLaid(s: seq<byte>, p: nat, l: Listing)
    requires ListingOk(l) && At(s, p, ListingBytes(l))
    ensures At(s, p, StringBytes(l.name)) && At(s, p + |StringBytes(l.name)|, Int32Bytes(|l.hashes|) + StringsBytes(l.hashes))
  {
    AtSplit(s, p, StringBytes(l.name), Int32Bytes(|l.hashes|) + StringsBytes(l.hashes));
  }

  /** After a collection's name, its hash count reads back and its hashes follow. */
  lemma ListingCount(s: seq<byte>, q: nat, hashes: seq<string>)
    requires StringsOk(hashes) && At(s, q, Int32Bytes(|hashes|) + StringsBytes(hashes))
    ensures Int32At(s, q) == Ok((|hashes|, q + 4)) && At(s, q + 4, StringsBytes(hashes))
  {
    AtSplit(s, q, Int32Bytes(|hashes|), StringsBytes(hashes));
    Int32AtRoundTrip(s, q, |hashes|);
  }

  /** Every hash of a list sits at its offset, one after the other, and the last one ends the list. */
  lemma HashesLaid(s: seq<byte>, p: nat, xs: seq<string>)
    requires (forall i | 0 <= i < |xs| :: Writable(xs[i])) && At(s, p, StringsBytes(xs))
    ensures var ps := HashOffsets(p, xs);
      ps[|xs|] == p + |StringsBytes(xs)| &&
      forall i | 0 <= i < |xs| :: ps[i + 1] == ps[i] + |StringBytes(xs[i])| && At(s, ps[i], StringBytes(xs[i]))
  {
    StringPartsOf(xs);
    AtEach(s, p, StringParts(xs));
  }
}
