/** Little-endian fixed-width words (encoding/binary). */
module Bytes {
  import opened Common

  function Pow256(w: nat): (r: nat)
    ensures r >= 1
  {
    if w == 0 then 1 else 256 * Pow256(w - 1)
  }

  /** `v` in `w` bytes, lowest first. */
  function ToBytes(v: nat, w: nat): (r: seq<byte>)
    ensures |r| == w
  {
    if w == 0 then [] else [v % 256] + ToBytes(v / 256, w - 1)
  }

  function FromBytes(bytes: seq<byte>): nat {
    if bytes == [] then 0 else bytes[0] + 256 * FromBytes(bytes[1..])
  }

  lemma {:induction false} WordRoundTrip(v: nat, w: nat)
    requires v < Pow256(w)
    ensures FromBytes(ToBytes(v, w)) == v
  {
    if w > 0 {
      WordRoundTrip(v / 256, w - 1);
      assert ToBytes(v, w)[1..] == ToBytes(v / 256, w - 1);
    }
  }

  /** The bytes as digits to base 256, byte `i` at place `i`. */
  ghost function PlaceValue(bytes: seq<byte>): nat {
    if bytes == [] then 0
    else
      var last := |bytes| - 1;
      PlaceValue(bytes[..last]) + bytes[last] * Pow256(last)
  }

  lemma {:induction false} FromBytesSnoc(bytes: seq<byte>, x: byte)
    ensures FromBytes(bytes + [x]) == FromBytes(bytes) + x * Pow256(|bytes|)
  {
    if bytes != [] {
      assert (bytes + [x])[1..] == bytes[1..] + [x];
      FromBytesSnoc(bytes[1..], x);
      var p := Pow256(|bytes| - 1);
      assert 256 * (x * p) == x * (256 * p);
    } else {
      assert [x][1..] == [];
    }
  }

  /** The lowest byte comes first. */
  lemma {:induction false} LowestFirst(bytes: seq<byte>)
    ensures FromBytes(bytes) == PlaceValue(bytes)
    decreases |bytes|
  {
    if bytes != [] {
      var last := |bytes| - 1;
      LowestFirst(bytes[..last]);
      FromBytesSnoc(bytes[..last], bytes[last]);
      assert bytes[..last] + [bytes[last]] == bytes;
    }
  }

  /** So a word is written as its own digits, lowest first. */
  lemma {:induction false} WordDigits(v: nat, w: nat)
    requires v < Pow256(w)
    ensures PlaceValue(ToBytes(v, w)) == v
  {
    WordRoundTrip(v, w);
    LowestFirst(ToBytes(v, w));
  }

  // ----- Records of words

  /** Total size of words of these widths. */
  function Size(widths: seq<nat>): nat {
    if widths == [] then 0 else widths[0] + Size(widths[1..])
  }

  ghost predicate Fits(widths: seq<nat>, words: seq<nat>) {
    |widths| == |words| && forall i :: 0 <= i < |words| ==> words[i] < Pow256(widths[i])
  }

  function Encode(widths: seq<nat>, words: seq<nat>): (r: seq<byte>)
    requires |widths| == |words|
    ensures |r| == Size(widths)
  {
    if widths == [] then [] else ToBytes(words[0], widths[0]) + Encode(widths[1..], words[1..])
  }

  function Decode(widths: seq<nat>, bytes: seq<byte>): (r: seq<nat>)
    requires |bytes| == Size(widths)
    ensures |r| == |widths|
  {
    if widths == [] then []
    else [FromBytes(bytes[..widths[0]])] + Decode(widths[1..], bytes[widths[0]..])
  }

  /** A record is its words one after the other. */
  lemma {:induction false} EncodeConcat(a: seq<nat>, x: seq<nat>, b: seq<nat>, y: seq<nat>)
    requires |a| == |x| && |b| == |y|
    ensures Encode(a + b, x + y) == Encode(a, x) + Encode(b, y)
  {
    if a == [] {
      assert a + b == b && x + y == y;
    } else {
      assert (a + b)[1..] == a[1..] + b && (x + y)[1..] == x[1..] + y;
      EncodeConcat(a[1..], x[1..], b, y);
    }
  }

  lemma {:induction false} EncodeOne(w: nat, x: nat)
    ensures Encode([w], [x]) == ToBytes(x, w)
  {
    assert Encode([], []) == [];
  }

  /** Decoding undoes encoding for any layout. */
  lemma {:induction false} RecordRoundTrip(widths: seq<nat>, words: seq<nat>)
    requires Fits(widths, words)
    ensures Decode(widths, Encode(widths, words)) == words
  {
    if widths != [] {
      var head, tail := ToBytes(words[0], widths[0]), Encode(widths[1..], words[1..]);
      var bytes := Encode(widths, words);
      assert bytes[..widths[0]] == head && bytes[widths[0]..] == tail;
      WordRoundTrip(words[0], widths[0]);
      RecordRoundTrip(widths[1..], words[1..]);
      assert [words[0]] + words[1..] == words;
    }
  }

  lemma {:induction false} DecodeFirst(w: nat, rest: seq<nat>, bytes: seq<byte>)
    requires |bytes| == w + Size(rest)
    ensures Size([w] + rest) == |bytes|
    ensures Decode([w] + rest, bytes) == [FromBytes(bytes[..w])] + Decode(rest, bytes[w..])
  {
    assert ([w] + rest)[1..] == rest;
  }

  /** `n` words of one width. */
  function Repeat(w: nat, n: nat): (r: seq<nat>)
    ensures |r| == n && forall i :: 0 <= i < n ==> r[i] == w
  {
    seq(n, _ => w)
  }

  /** An array of words of one width. */
  function Array(w: nat, xs: seq<nat>): (r: seq<byte>)
    ensures |r| == Size(Repeat(w, |xs|))
  {
    if xs == [] then []
    else
      assert Repeat(w, |xs|)[1..] == Repeat(w, |xs| - 1);
      ToBytes(xs[0], w) + Array(w, xs[1..])
  }

  lemma {:induction false} EncodeArray(w: nat, xs: seq<nat>)
    ensures Encode(Repeat(w, |xs|), xs) == Array(w, xs)
  {
    if xs != [] {
      assert Repeat(w, |xs|)[1..] == Repeat(w, |xs| - 1);
      EncodeArray(w, xs[1..]);
    }
  }

  lemma {:induction false} SizeConcat(a: seq<nat>, b: seq<nat>)
    ensures Size(a + b) == Size(a) + Size(b)
  {
    if a == [] {
      assert a + b == b;
    } else {
      assert (a + b)[1..] == a[1..] + b;
      SizeConcat(a[1..], b);
    }
  }

  lemma {:induction false} SizeRepeat(w: nat, n: nat)
    ensures Size(Repeat(w, n)) == w * n
  {
    if n > 0 {
      SizeRepeat(w, n - 1);
      assert Repeat(w, n)[1..] == Repeat(w, n - 1);
      assert w * n == w + w * (n - 1);
    }
  }
}
