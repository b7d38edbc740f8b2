/** Debian version ordering (internal/debversion), section 5.6.12 of the
    Debian Policy Manual, on arbitrary byte strings. The comparison loops are
    proved to compute the lexicographic order of a key. */
module DebVersion {
  import opened Common

  const ZERO: byte := 48
  const NINE: byte := 57
  const COLON: byte := 58
  const HYPHEN: byte := 45
  const TILDE: byte := 126

  predicate IsDigit(c: byte) {
    ZERO <= c <= NINE
  }

  predicate IsLetter(c: byte) {
    97 <= c <= 122 || 65 <= c <= 90
  }

  /** '~' before the end of the string, then letters, then the rest. The NUL
      byte weighs the same as the end of the string. */
  function CharOrder(c: byte): int {
    if c == TILDE then -1
    else if c == 0 then 0
    else if IsLetter(c) then c
    else c + 256
  }

  function Sign(x: int, y: int): int {
    if x < y then -1 else if x > y then 1 else 0
  }

  // ----- Runs

  /** Length of the leading run of non-digits. */
  function NonDigits(s: seq<byte>): (n: nat)
    ensures n <= |s| && (n < |s| ==> IsDigit(s[n]))
    ensures forall i :: 0 <= i < n ==> !IsDigit(s[i])
  {
    if s == [] || IsDigit(s[0]) then 0 else 1 + NonDigits(s[1..])
  }

  /** Length of the leading run of digits. */
  function Digits(s: seq<byte>): (n: nat)
    ensures n <= |s| && (n < |s| ==> !IsDigit(s[n]))
    ensures forall i :: 0 <= i < n ==> IsDigit(s[i])
  {
    if s == [] || !IsDigit(s[0]) then 0 else 1 + Digits(s[1..])
  }

  lemma NonDigitsIs(s: seq<byte>, n: nat)
    requires n <= |s| && (n < |s| ==> IsDigit(s[n])) && forall i :: 0 <= i < n ==> !IsDigit(s[i])
    ensures NonDigits(s) == n
  {
  }

  lemma DigitsIs(s: seq<byte>, n: nat)
    requires n <= |s| && (n < |s| ==> !IsDigit(s[n])) && forall i :: 0 <= i < n ==> IsDigit(s[i])
    ensures Digits(s) == n
  {
  }

  // ----- Numbers

  function Pow10(n: nat): (r: nat)
    ensures r >= 1
  {
    if n == 0 then 1 else 10 * Pow10(n - 1)
  }

  function DigitOf(c: byte): (d: nat)
    requires IsDigit(c)
    ensures d <= 9 && (d == 0 <==> c == ZERO)
  {
    c - ZERO
  }

  lemma {:induction false} Scale(x: nat, y: nat, p: nat)
    requires x <= y
    ensures x * p <= y * p
    ensures x < y ==> x * p + p <= y * p
  {
    if x < y {
      assert (y - x - 1) * p >= 0;
      assert (y - x - 1) * p == y * p - x * p - p;
    }
  }

  /** The number a digit string denotes; 0 for the empty string. */
  function Value(s: seq<byte>): nat
    requires forall i :: 0 <= i < |s| ==> IsDigit(s[i])
  {
    if s == [] then 0 else DigitOf(s[0]) * Pow10(|s| - 1) + Value(s[1..])
  }

  function TrimZeros(s: seq<byte>): seq<byte> {
    if s != [] && s[0] == ZERO then TrimZeros(s[1..]) else s
  }

  /** Go's string order: bytewise, a prefix first. */
  function Lex(a: seq<byte>, b: seq<byte>): int {
    if a == [] && b == [] then 0
    else if a == [] then -1
    else if b == [] then 1
    else if a[0] != b[0] then Sign(a[0], b[0])
    else Lex(a[1..], b[1..])
  }

  /** Shorter first, then bytewise. */
  function ShortLex(a: seq<byte>, b: seq<byte>): int {
    if |a| != |b| then Sign(|a|, |b|) else Lex(a, b)
  }

  // ----- Keys

  /** One non-digit run, as weights, and the number after it. */
  datatype Block = Block(orders: seq<int>, num: nat)

  function Orders(s: seq<byte>): (r: seq<int>)
    ensures |r| == |s| && forall i :: 0 <= i < |s| ==> r[i] == CharOrder(s[i])
  {
    if s == [] then [] else [CharOrder(s[0])] + Orders(s[1..])
  }

  /** A version part as its alternating runs. */
  function Blocks(s: seq<byte>): seq<Block>
    decreases |s|
  {
    if s == [] then []
    else
      var n := NonDigits(s);
      var m := Digits(s[n..]);
      [Block(Orders(s[..n]), Value(s[n..][..m]))] + Blocks(s[n..][m..])
  }

  /** Lexicographic order of weights; the shorter side is padded with 0. */
  function PadCmp(a: seq<int>, b: seq<int>): int
    decreases |a| + |b|
  {
    if a == [] && b == [] then 0
    else
      var x := if a == [] then 0 else a[0];
      var y := if b == [] then 0 else b[0];
      if x != y then Sign(x, y)
      else PadCmp(if a == [] then [] else a[1..], if b == [] then [] else b[1..])
  }

  function BlockCmp(a: Block, b: Block): int {
    if PadCmp(a.orders, b.orders) != 0 then PadCmp(a.orders, b.orders) else Sign(a.num, b.num)
  }

  const NOTHING := Block([], 0)

  /** Lexicographic order of blocks; the shorter side is padded. */
  function KeyCmp(a: seq<Block>, b: seq<Block>): int
    decreases |a| + |b|
  {
    if a == [] && b == [] then 0
    else
      var x := if a == [] then NOTHING else a[0];
      var y := if b == [] then NOTHING else b[0];
      if BlockCmp(x, y) != 0 then BlockCmp(x, y)
      else KeyCmp(if a == [] then [] else a[1..], if b == [] then [] else b[1..])
  }

  function PartCmp(a: seq<byte>, b: seq<byte>): int {
    KeyCmp(Blocks(a), Blocks(b))
  }

  // ----- Splitting a version

  /** Index of the first `c`, or -1. */
  function IndexOf(s: seq<byte>, c: byte): (i: int)
    ensures -1 <= i < |s|
    ensures i >= 0 ==> s[i] == c && c !in s[..i]
    ensures i < 0 ==> c !in s
  {
    if s == [] then -1
    else if s[0] == c then 0
    else var i := IndexOf(s[1..], c); if i < 0 then -1 else i + 1
  }

  /** Index of the last `c`, or -1. */
  function LastIndexOf(s: seq<byte>, c: byte): (i: int)
    ensures -1 <= i < |s|
    ensures i >= 0 ==> s[i] == c && c !in s[i + 1..]
    ensures i < 0 ==> c !in s
  {
    if s == [] then -1
    else if s[|s| - 1] == c then |s| - 1
    else LastIndexOf(s[..|s| - 1], c)
  }

  datatype Version = Version(epoch: seq<byte>, upstream: seq<byte>, revision: seq<byte>)

  function SplitEpoch(v: seq<byte>): (seq<byte>, seq<byte>) {
    var i := IndexOf(v, COLON);
    if i >= 0 then (v[..i], v[i + 1..]) else ([ZERO], v)
  }

  function SplitRevision(v: seq<byte>): (seq<byte>, seq<byte>) {
    var i := LastIndexOf(v, HYPHEN);
    if i >= 0 then (v[..i], v[i + 1..]) else (v, [])
  }

  function Split(v: seq<byte>): Version {
    var (epoch, rest) := SplitEpoch(v);
    var (upstream, revision) := SplitRevision(rest);
    Version(epoch, upstream, revision)
  }

  /** The order of versions: epoch, then upstream version, then revision. */
  function SplitCmp(x: Version, y: Version): int {
    var e := ShortLex(TrimZeros(x.epoch), TrimZeros(y.epoch));
    var u := PartCmp(x.upstream, y.upstream);
    if e != 0 then e else if u != 0 then u else PartCmp(x.revision, y.revision)
  }

  function VersionCmp(a: seq<byte>, b: seq<byte>): int {
    SplitCmp(Split(a), Split(b))
  }

  // ----- The comparison loops

  method CompareNonDigitRun(a: seq<byte>, b: seq<byte>) returns (r: int)
    ensures r == PadCmp(Orders(a), Orders(b))
  {
    var n := |a|;
    if |b| > n {
      n := |b|;
    }
    for k := 0 to n
      invariant PadCmp(Orders(a), Orders(b)) == PadCmp(From(Orders(a), k), From(Orders(b), k))
    {
      var oa := OrderAt(a, k);
      var ob := OrderAt(b, k);
      PadStep(Orders(a), Orders(b), k);
      if oa != ob {
        if oa < ob {
          return -1;
        }
        return 1;
      }
    }
    return 0;
  }

  /** The weight of byte `k`; past the end that of byte 0. */
  method OrderAt(s: seq<byte>, k: nat) returns (o: int)
    ensures o == if k < |s| then Orders(s)[k] else 0
  {
    var c: byte := 0;
    if k < |s| {
      c := s[k];
    }
    o := CharOrder(c);
  }

  /** The elements from index `k` on; nothing past the end. */
  function From(s: seq<int>, k: nat): seq<int> {
    if k < |s| then s[k..] else []
  }

  lemma PadStep(a: seq<int>, b: seq<int>, k: nat)
    requires k < |a| || k < |b|
    ensures var x, y := if k < |a| then a[k] else 0, if k < |b| then b[k] else 0;
            PadCmp(From(a, k), From(b, k)) == if x != y then Sign(x, y) else PadCmp(From(a, k + 1), From(b, k + 1))
  {
    assert k < |a| ==> From(a, k)[1..] == From(a, k + 1);
    assert k < |b| ==> From(b, k)[1..] == From(b, k + 1);
  }

  predicate AllDigits(s: seq<byte>) {
    forall i :: 0 <= i < |s| ==> IsDigit(s[i])
  }

  /** Runs of digits compare as the numbers they denote; other strings, which
      an epoch may be, by length and then bytewise once leading zeros are cut. */
  method CompareDigitRun(a: seq<byte>, b: seq<byte>) returns (r: int)
    ensures AllDigits(a) && AllDigits(b) ==> r == Sign(Value(a), Value(b))
    ensures r == ShortLex(TrimZeros(a), TrimZeros(b))
  {
    if AllDigits(a) && AllDigits(b) {
      DigitRunsAreNumbers(a, b);
    }
    var x, y := TrimZeros(a), TrimZeros(b);
    if |x| != |y| {
      if |x| < |y| {
        return -1;
      }
      return 1;
    }
    r := Lex(x, y);
  }

  /** `s` starts with the maximal runs `run` and `digits`. */
  ghost predicate Starts(s: seq<byte>, run: seq<byte>, digits: seq<byte>, rest: seq<byte>) {
    && s == run + digits + rest
    && (forall i :: 0 <= i < |run| ==> !IsDigit(run[i]))
    && (forall i :: 0 <= i < |digits| ==> IsDigit(digits[i]))
    && (digits == [] ==> rest == [])
    && (rest != [] ==> !IsDigit(rest[0]))
  }

  lemma {:induction false} FirstBlock(s: seq<byte>, run: seq<byte>, digits: seq<byte>, rest: seq<byte>)
    requires Starts(s, run, digits, rest)
    ensures s == [] ==> run == [] && digits == [] && rest == []
    ensures s != [] ==> Blocks(s) == [Block(Orders(run), Value(digits))] + Blocks(rest) && |rest| < |s|
  {
    if s != [] {
      var n := |run|;
      NonDigitsIs(s, n);
      assert s[n..] == digits + rest;
      DigitsIs(s[n..], |digits|);
      assert s[..n] == run && s[n..][..|digits|] == digits && s[n..][|digits|..] == rest;
    }
  }

  /** One round of the loop settles the comparison or moves on to the rest. */
  lemma {:induction false} RoundStep(a: seq<byte>, runA: seq<byte>, digitsA: seq<byte>, restA: seq<byte>,
                                     b: seq<byte>, runB: seq<byte>, digitsB: seq<byte>, restB: seq<byte>)
    requires a != [] || b != []
    requires Starts(a, runA, digitsA, restA) && Starts(b, runB, digitsB, restB)
    ensures var c := PadCmp(Orders(runA), Orders(runB));
            var d := ShortLex(TrimZeros(digitsA), TrimZeros(digitsB));
            PartCmp(a, b) == if c != 0 then c else if d != 0 then d else PartCmp(restA, restB)
    ensures |restA| + |restB| < |a| + |b|
  {
    FirstBlock(a, runA, digitsA, restA);
    FirstBlock(b, runB, digitsB, restB);
    DigitRunsAreNumbers(digitsA, digitsB);
    assert a != [] ==> Blocks(a)[1..] == Blocks(restA);
    assert b != [] ==> Blocks(b)[1..] == Blocks(restB);
  }

  /** End of the run of digits (or of non-digits) that starts at `start`. */
  method SkipRun(s: seq<byte>, start: nat, digits: bool) returns (i: nat)
    requires start <= |s|
    ensures start <= i <= |s|
    ensures forall k :: start <= k < i ==> IsDigit(s[k]) == digits
    ensures i < |s| ==> IsDigit(s[i]) != digits
  {
    i := start;
    while i < |s| && IsDigit(s[i]) == digits
      invariant start <= i <= |s|
      invariant forall k :: start <= k < i ==> IsDigit(s[k]) == digits
    {
      i := i + 1;
    }
  }

  lemma SlicesStart(s: seq<byte>, i: nat, k: nat, m: nat)
    requires i <= k <= m <= |s|
    requires forall x :: i <= x < k ==> !IsDigit(s[x])
    requires forall x :: k <= x < m ==> IsDigit(s[x])
    requires (k < |s| ==> k < m) && (m < |s| ==> !IsDigit(s[m]))
    ensures Starts(s[i..], s[i..k], s[k..m], s[m..])
  {
    assert s[i..] == s[i..k] + s[k..m] + s[m..];
  }

  /** The two-index loop computes the order of keys. */
  method CompareVersionPart(a: seq<byte>, b: seq<byte>) returns (r: int)
    ensures r == PartCmp(a, b)
  {
    var i, j := 0, 0;
    while i < |a| || j < |b|
      invariant i <= |a| && j <= |b|
      invariant PartCmp(a, b) == PartCmp(a[i..], b[j..])
      decreases |a| - i + |b| - j
    {
      var i1 := SkipRun(a, i, false);
      var j1 := SkipRun(b, j, false);
      var c := CompareNonDigitRun(a[i..i1], b[j..j1]);
      var i2 := SkipRun(a, i1, true);
      var j2 := SkipRun(b, j1, true);
      SlicesStart(a, i, i1, i2);
      SlicesStart(b, j, j1, j2);
      RoundStep(a[i..], a[i..i1], a[i1..i2], a[i2..], b[j..], b[j..j1], b[j1..j2], b[j2..]);
      if c != 0 {
        return c;
      }
      c := CompareDigitRun(a[i1..i2], b[j1..j2]);
      if c != 0 {
        return c;
      }
      i, j := i2, j2;
    }
    return 0;
  }

  method Compare(a: seq<byte>, b: seq<byte>) returns (r: int)
    ensures r == VersionCmp(a, b)
  {
    var (epochA, restA) := SplitEpoch(a);
    var (epochB, restB) := SplitEpoch(b);
    r := CompareDigitRun(epochA, epochB);
    if r != 0 {
      return;
    }
    var (upstreamA, revisionA) := SplitRevision(restA);
    var (upstreamB, revisionB) := SplitRevision(restB);
    r := CompareVersionPart(upstreamA, upstreamB);
    if r != 0 {
      return;
    }
    r := CompareVersionPart(revisionA, revisionB);
  }

  // ----- Digit runs compare as numbers

  lemma {:induction false} TrimKeepsValue(s: seq<byte>)
    requires forall i :: 0 <= i < |s| ==> IsDigit(s[i])
    ensures forall i :: 0 <= i < |TrimZeros(s)| ==> IsDigit(TrimZeros(s)[i])
    ensures Value(TrimZeros(s)) == Value(s)
    ensures TrimZeros(s) != [] ==> TrimZeros(s)[0] != ZERO
  {
    if s != [] && s[0] == ZERO {
      TrimKeepsValue(s[1..]);
    }
  }

  lemma {:induction false} ValueBounds(s: seq<byte>)
    requires forall i :: 0 <= i < |s| ==> IsDigit(s[i])
    ensures Value(s) < Pow10(|s|)
    ensures s != [] && s[0] != ZERO ==> Pow10(|s| - 1) <= Value(s)
  {
    if s != [] {
      ValueBounds(s[1..]);
      var d, p := DigitOf(s[0]), Pow10(|s| - 1);
      Scale(d, 9, p);
      Scale(0, d, p);
    }
  }

  lemma {:induction false} Pow10Monotone(m: nat, n: nat)
    requires m <= n
    ensures Pow10(m) <= Pow10(n)
    decreases n - m
  {
    if m < n {
      Pow10Monotone(m, n - 1);
    }
  }

  lemma {:induction false} LexIsNumeric(a: seq<byte>, b: seq<byte>)
    requires |a| == |b|
    requires forall i :: 0 <= i < |a| ==> IsDigit(a[i])
    requires forall i :: 0 <= i < |b| ==> IsDigit(b[i])
    ensures Lex(a, b) == Sign(Value(a), Value(b))
  {
    if a != [] {
      LexIsNumeric(a[1..], b[1..]);
      ValueBounds(a[1..]);
      ValueBounds(b[1..]);
      var x, y := DigitOf(a[0]), DigitOf(b[0]);
      if x < y {
        Scale(x, y, Pow10(|a| - 1));
      } else if x > y {
        Scale(y, x, Pow10(|a| - 1));
      }
    }
  }

  /** Digit runs of any length compare as the numbers they denote. */
  lemma {:induction false} DigitRunsAreNumbers(a: seq<byte>, b: seq<byte>)
    requires forall i :: 0 <= i < |a| ==> IsDigit(a[i])
    requires forall i :: 0 <= i < |b| ==> IsDigit(b[i])
    ensures ShortLex(TrimZeros(a), TrimZeros(b)) == Sign(Value(a), Value(b))
  {
    TrimKeepsValue(a);
    TrimKeepsValue(b);
    var x, y := TrimZeros(a), TrimZeros(b);
    ValueBounds(x);
    ValueBounds(y);
    if |x| < |y| {
      Pow10Monotone(|x|, |y| - 1);
    } else if |x| > |y| {
      Pow10Monotone(|y|, |x| - 1);
    } else {
      LexIsNumeric(x, y);
    }
  }
}
