/**
 * An abstract model of the binary Packer/Unpacker pair: a packed blob is a
 * sequence of primitive tokens, one per primitive `Pack` call.  Encoders are
 * specifications (ghost); decoders are executable and fail with `None`
 * wherever the unpacker would throw.
 */
module Packing {
  import opened Wrappers
  import opened Collections

  datatype Token =
    | Byte(ByteValue: int)
    | Long(LongValue: int)
    | Bool(BoolValue: bool)
    | Text(TextValue: string)

  /** The elements of a set, each once, in some fixed order. */
  ghost function SetToSeq(s: set<int>): (r: seq<int>)
    ensures |r| == |s|
    ensures forall x :: x in r <==> x in s
    decreases |s|
  {
    if s == {} then []
    else
      HasElement(s);
      var x :| x in s;
      [x] + SetToSeq(s - {x})
  }

  function LongsOf(xs: seq<int>): (r: seq<Token>)
    ensures |r| == |xs|
  {
    if xs == [] then [] else [Long(xs[0])] + LongsOf(xs[1..])
  }

  /** A set of longs: its count, then each element. */
  ghost function EncodeSet(s: set<int>): seq<Token> {
    [Long(|s|)] + LongsOf(SetToSeq(s))
  }

  function DecodeLongs(n: nat, ts: seq<Token>): Option<(set<int>, seq<Token>)>
    decreases n
  {
    if n == 0 then Some(({}, ts))
    else if |ts| > 0 && ts[0].Long? then
      match DecodeLongs(n - 1, ts[1..])
      case None => None
      case Some((s, rest)) => Some(({ts[0].LongValue} + s, rest))
    else None
  }

  function DecodeSet(ts: seq<Token>): Option<(set<int>, seq<Token>)> {
    if |ts| > 0 && ts[0].Long? && ts[0].LongValue >= 0 then DecodeLongs(ts[0].LongValue, ts[1..])
    else None
  }

  lemma {:induction false} DecodeLongsOf(xs: seq<int>, rest: seq<Token>)
    ensures DecodeLongs(|xs|, LongsOf(xs) + rest) == Some(((set x | x in xs), rest))
    decreases |xs|
  {
    var ts := LongsOf(xs) + rest;
    if xs == [] {
      assert ts == rest;
      assert (set x | x in xs) == {};
    } else {
      DecodeLongsOf(xs[1..], rest);
      assert ts == [Long(xs[0])] + (LongsOf(xs[1..]) + rest);
      assert ts[0] == Long(xs[0]);
      assert ts[1..] == LongsOf(xs[1..]) + rest;
      assert (set x | x in xs) == {xs[0]} + (set x | x in xs[1..]);
      assert DecodeLongs(|xs|, ts) == Some(({xs[0]} + (set x | x in xs[1..]), rest));
    }
  }

  /** Unpacking a packed set gives back the set and leaves the rest of the stream. */
  lemma SetRoundTrip(s: set<int>, rest: seq<Token>)
    ensures DecodeSet(EncodeSet(s) + rest) == Some((s, rest))
  {
    var xs := SetToSeq(s);
    DecodeLongsOf(xs, rest);
    assert (set x | x in xs) == s;
    assert EncodeSet(s) + rest == [Long(|s|)] + (LongsOf(xs) + rest);
  }

  /** A nullable value: a presence flag, then the value when present. */
  function EncodeOptional<T>(x: Option<T>, enc: T -> seq<Token>): seq<Token> {
    if x.Some? then [Bool(true)] + enc(x.value) else [Bool(false)]
  }

  function DecodeOptional<T>(ts: seq<Token>, dec: seq<Token> -> Option<(T, seq<Token>)>): Option<(Option<T>, seq<Token>)> {
    if |ts| == 0 || !ts[0].Bool? then None
    else if !ts[0].BoolValue then Some((None, ts[1..]))
    else
      match dec(ts[1..])
      case None => None
      case Some((x, rest)) => Some((Some(x), rest))
  }

  /** A nullable value unpacks back when its value does. */
  lemma OptionalRoundTrip<T>(x: Option<T>, enc: T -> seq<Token>, dec: seq<Token> -> Option<(T, seq<Token>)>, rest: seq<Token>)
    requires x.Some? ==> RoundTrips(x.value, enc, dec)
    ensures DecodeOptional(EncodeOptional(x, enc) + rest, dec) == Some((x, rest))
  {
    if x.Some? {
      assert (EncodeOptional(x, enc) + rest)[1..] == enc(x.value) + rest;
    } else {
      assert (EncodeOptional(x, enc) + rest)[1..] == rest;
    }
  }

  /** The values stored under `ks`, one encoding after another. */
  function EncodeValues<T>(m: map<int, T>, ks: seq<int>, enc: T -> seq<Token>): seq<Token>
    requires forall i :: 0 <= i < |ks| ==> ks[i] in m
  {
    if ks == [] then [] else enc(m[ks[0]]) + EncodeValues(m, ks[1..], enc)
  }

  /**
   * A dictionary packed as its count and its values, in some fixed key order;
   * the unpacker keys each value by the key the value itself reports
   * (`IUnpackerKey.UnpackerKey`).
   */
  ghost function EncodeMap<T>(m: map<int, T>, enc: T -> seq<Token>): seq<Token> {
    var ks := SetToSeq(m.Keys);
    [Long(|ks|)] + EncodeValues(m, ks, enc)
  }

  function DecodeEntries<T>(n: nat, ts: seq<Token>, dec: seq<Token> -> Option<(T, seq<Token>)>, key: T -> int)
    : Option<(map<int, T>, seq<Token>)>
    decreases n
  {
    if n == 0 then Some((map[], ts))
    else
      match dec(ts)
      case None => None
      case Some((x, ts1)) =>
        match DecodeEntries(n - 1, ts1, dec, key)
        case None => None
        case Some((m, rest)) => Some((map[key(x) := x] + m, rest))
  }

  function DecodeMap<T>(ts: seq<Token>, dec: seq<Token> -> Option<(T, seq<Token>)>, key: T -> int)
    : Option<(map<int, T>, seq<Token>)>
  {
    if |ts| > 0 && ts[0].Long? && ts[0].LongValue >= 0 then DecodeEntries(ts[0].LongValue, ts[1..], dec, key)
    else None
  }

  /** Every value is stored under the key it reports. */
  ghost predicate Keyed<T>(m: map<int, T>, key: T -> int) {
    forall k :: k in m ==> key(m[k]) == k
  }

  /** An unpacked dictionary stores every value under the key it reports. */
  lemma {:induction false} DecodedEntriesKeyed<T>(n: nat, ts: seq<Token>, dec: seq<Token> -> Option<(T, seq<Token>)>, key: T -> int)
    ensures DecodeEntries(n, ts, dec, key).Some? ==> Keyed(DecodeEntries(n, ts, dec, key).value.0, key)
    decreases n
  {
    if n > 0 && dec(ts).Some? {
      var (x, ts1) := dec(ts).value;
      DecodedEntriesKeyed(n - 1, ts1, dec, key);
      if DecodeEntries(n - 1, ts1, dec, key).Some? {
        var m := DecodeEntries(n - 1, ts1, dec, key).value.0;
        assert Keyed(m, key);
        var r := map[key(x) := x] + m;
        assert DecodeEntries(n, ts, dec, key).value.0 == r;
        forall k | k in r ensures key(r[k]) == k {
          if k in m {
            assert r[k] == m[k];
          } else {
            assert k == key(x);
          }
        }
      }
    }
  }

  lemma DecodedMapKeyed<T>(ts: seq<Token>, dec: seq<Token> -> Option<(T, seq<Token>)>, key: T -> int)
    ensures DecodeMap(ts, dec, key).Some? ==> Keyed(DecodeMap(ts, dec, key).value.0, key)
  {
    if |ts| > 0 && ts[0].Long? && ts[0].LongValue >= 0 {
      DecodedEntriesKeyed(ts[0].LongValue, ts[1..], dec, key);
      assert DecodeMap(ts, dec, key) == DecodeEntries(ts[0].LongValue, ts[1..], dec, key);
    }
  }

  /** Every value satisfies `p`. */
  ghost predicate AllSatisfy<T>(m: map<int, T>, p: T -> bool) {
    forall k :: k in m ==> p(m[k])
  }

  /** An unpacked dictionary holds only values its value decoder can produce. */
  lemma {:induction false} DecodedEntriesAll<T>(n: nat, ts: seq<Token>, dec: seq<Token> -> Option<(T, seq<Token>)>,
                                                key: T -> int, p: T -> bool)
    requires forall t :: dec(t).Some? ==> p(dec(t).value.0)
    ensures DecodeEntries(n, ts, dec, key).Some? ==> AllSatisfy(DecodeEntries(n, ts, dec, key).value.0, p)
    decreases n
  {
    if n > 0 && dec(ts).Some? {
      var (x, ts1) := dec(ts).value;
      assert p(x);
      DecodedEntriesAll(n - 1, ts1, dec, key, p);
      if DecodeEntries(n - 1, ts1, dec, key).Some? {
        var m := DecodeEntries(n - 1, ts1, dec, key).value.0;
        assert AllSatisfy(m, p);
        var r := map[key(x) := x] + m;
        assert DecodeEntries(n, ts, dec, key).value.0 == r;
        forall k | k in r ensures p(r[k]) {
          if k in m {
            assert r[k] == m[k];
          } else {
            assert r[k] == x;
          }
        }
      }
    }
  }

  lemma DecodedMapAll<T>(ts: seq<Token>, dec: seq<Token> -> Option<(T, seq<Token>)>, key: T -> int, p: T -> bool)
    requires forall t :: dec(t).Some? ==> p(dec(t).value.0)
    ensures DecodeMap(ts, dec, key).Some? ==> AllSatisfy(DecodeMap(ts, dec, key).value.0, p)
  {
    if |ts| > 0 && ts[0].Long? && ts[0].LongValue >= 0 {
      DecodedEntriesAll(ts[0].LongValue, ts[1..], dec, key, p);
      assert DecodeMap(ts, dec, key) == DecodeEntries(ts[0].LongValue, ts[1..], dec, key);
    }
  }

  /** Decoding `enc(x)` followed by any tail gives `y` and the tail. */
  ghost predicate DecodesTo<T>(x: T, y: T, enc: T -> seq<Token>, dec: seq<Token> -> Option<(T, seq<Token>)>) {
    forall tail :: dec(enc(x) + tail) == Some((y, tail))
  }

  /** Decoding `enc(x)` followed by any tail gives back `x` and the tail. */
  ghost predicate RoundTrips<T>(x: T, enc: T -> seq<Token>, dec: seq<Token> -> Option<(T, seq<Token>)>) {
    DecodesTo(x, x, enc, dec)
  }

  lemma DecodeEntriesStep<T>(n: nat, x: T, ts1: seq<Token>, m: map<int, T>, rest: seq<Token>,
                             dec: seq<Token> -> Option<(T, seq<Token>)>, key: T -> int, ts: seq<Token>)
    requires n > 0 && dec(ts) == Some((x, ts1)) && DecodeEntries(n - 1, ts1, dec, key) == Some((m, rest))
    ensures DecodeEntries(n, ts, dec, key) == Some((map[key(x) := x] + m, rest))
  {
  }

  /** The values under `ks`, packed one after another, unpack to their images under `img`. */
  lemma {:induction false} ValuesDecode<T>(m: map<int, T>, img: map<int, T>, ks: seq<int>, enc: T -> seq<Token>,
                                           dec: seq<Token> -> Option<(T, seq<Token>)>, key: T -> int,
                                           rest: seq<Token>)
    requires forall i :: 0 <= i < |ks| ==> ks[i] in m && ks[i] in img && key(img[ks[i]]) == ks[i]
                                           && DecodesTo(m[ks[i]], img[ks[i]], enc, dec)
    ensures DecodeEntries(|ks|, EncodeValues(m, ks, enc) + rest, dec, key) == Some(((map k | k in ks :: img[k]), rest))
    decreases |ks|
  {
    if ks == [] {
      assert EncodeValues(m, ks, enc) + rest == rest;
    } else {
      var k := ks[0];
      var tail := EncodeValues(m, ks[1..], enc) + rest;
      ValuesDecode(m, img, ks[1..], enc, dec, key, rest);
      assert EncodeValues(m, ks, enc) + rest == enc(m[k]) + tail;
      assert DecodesTo(m[k], img[k], enc, dec);
      assert dec(enc(m[k]) + tail) == Some((img[k], tail));
      DecodeEntriesStep(|ks|, img[k], tail, (map j | j in ks[1..] :: img[j]), rest, dec, key, EncodeValues(m, ks, enc) + rest);
      assert map[key(img[k]) := img[k]] + (map j | j in ks[1..] :: img[j]) == (map j | j in ks :: img[j]);
    }
  }

  /** Collecting a dictionary's values under a sequence of exactly its keys gives it back. */
  lemma CollectedMap<T>(m: map<int, T>, ks: seq<int>)
    requires forall k :: k in ks <==> k in m
    ensures (map k | k in ks :: m[k]) == m
  {
    var m' := map k | k in ks :: m[k];
    forall k ensures k in m' <==> k in m {
      assert k in m' <==> k in ks;
    }
    assert m'.Keys == m.Keys;
    assert forall k :: k in m' ==> m'[k] == m[k];
  }

  /**
   * Unpacking a packed dictionary gives the dictionary of the values' images,
   * when every value unpacks to an image that reports the value's key.
   */
  lemma MapDecodes<T>(m: map<int, T>, img: map<int, T>, enc: T -> seq<Token>,
                      dec: seq<Token> -> Option<(T, seq<Token>)>, key: T -> int, rest: seq<Token>)
    requires img.Keys == m.Keys
    requires forall k :: k in m ==> key(img[k]) == k && DecodesTo(m[k], img[k], enc, dec)
    ensures DecodeMap(EncodeMap(m, enc) + rest, dec, key) == Some((img, rest))
  {
    var ks := SetToSeq(m.Keys);
    forall i | 0 <= i < |ks|
      ensures ks[i] in m && ks[i] in img && key(img[ks[i]]) == ks[i] && DecodesTo(m[ks[i]], img[ks[i]], enc, dec)
    {
      var k := ks[i];
      assert k in ks;
      assert k in m;
    }
    ValuesDecode(m, img, ks, enc, dec, key, rest);
    forall k ensures k in ks <==> k in img {
      assert k in ks <==> k in m;
    }
    CollectedMap(img, ks);
    assert EncodeMap(m, enc) + rest == [Long(|ks|)] + (EncodeValues(m, ks, enc) + rest);
  }

  /** Unpacking a packed dictionary whose values report their own keys gives it back. */
  lemma MapRoundTrip<T>(m: map<int, T>, enc: T -> seq<Token>,
                        dec: seq<Token> -> Option<(T, seq<Token>)>, key: T -> int, rest: seq<Token>)
    requires forall k :: k in m ==> key(m[k]) == k
    requires forall k :: k in m ==> RoundTrips(m[k], enc, dec)
    ensures DecodeMap(EncodeMap(m, enc) + rest, dec, key) == Some((m, rest))
  {
    forall k | k in m ensures key(m[k]) == k && DecodesTo(m[k], m[k], enc, dec) {
      assert RoundTrips(m[k], enc, dec);
    }
    MapDecodes(m, m, enc, dec, key, rest);
  }
}
