/** What the version order says about strings, part by part and character by
    character, as section 5.6.12 of the Debian Policy Manual puts it. */
module DebPolicy {
  import opened Common
  import opened DebVersion
  import opened DebOrder

  // ----- Epoch, upstream version, revision

  lemma {:induction false} FirstAt(a: seq<byte>, c: byte, b: seq<byte>)
    requires c !in a
    ensures IndexOf(a + [c] + b, c) == |a|
  {
    if a != [] {
      assert (a + [c] + b)[1..] == a[1..] + [c] + b;
      FirstAt(a[1..], c, b);
    }
  }

  lemma {:induction false} LastAt(a: seq<byte>, c: byte, b: seq<byte>)
    requires c !in b
    ensures LastIndexOf(a + [c] + b, c) == |a|
    decreases |b|
  {
    var s := a + [c] + b;
    if b != [] {
      assert s[..|s| - 1] == a + [c] + b[..|b| - 1];
      LastAt(a, c, b[..|b| - 1]);
    }
  }

  lemma {:induction false} EpochOf(d: seq<byte>, x: seq<byte>)
    requires COLON !in d
    ensures SplitEpoch(d + [COLON] + x) == (d, x)
  {
    var v := d + [COLON] + x;
    FirstAt(d, COLON, x);
    assert v[..|d|] == d && v[|d| + 1..] == x;
  }

  lemma {:induction false} RevisionOf(u: seq<byte>, r: seq<byte>)
    requires HYPHEN !in r
    ensures SplitRevision(u + [HYPHEN] + r) == (u, r)
  {
    var v := u + [HYPHEN] + r;
    LastAt(u, HYPHEN, r);
    assert v[..|u|] == u && v[|u| + 1..] == r;
  }

  lemma {:induction false} NoColon(u: seq<byte>, r: seq<byte>)
    requires COLON !in u && COLON !in r
    ensures SplitEpoch(u + [HYPHEN] + r) == ([ZERO], u + [HYPHEN] + r)
  {
    assert COLON !in u + [HYPHEN] + r;
  }

  /** The upstream version decides, and the revision only between equal
      upstream versions. An upstream version may contain hyphens. */
  lemma {:induction false} UpstreamThenRevision(u: seq<byte>, r: seq<byte>, v: seq<byte>, s: seq<byte>)
    requires COLON !in u && COLON !in r && COLON !in v && COLON !in s && HYPHEN !in r && HYPHEN !in s
    ensures VersionCmp(u + [HYPHEN] + r, v + [HYPHEN] + s)
         == if PartCmp(u, v) != 0 then PartCmp(u, v) else PartCmp(r, s)
  {
    NoColon(u, r);
    NoColon(v, s);
    RevisionOf(u, r);
    RevisionOf(v, s);
    LexAntisymmetric(TrimZeros([ZERO]), TrimZeros([ZERO]));
  }

  lemma {:induction false} DigitsNoColon(d: seq<byte>)
    requires AllDigits(d)
    ensures COLON !in d
  {
    assert !IsDigit(COLON);
  }

  /** A lower epoch is older, whatever follows; between equal epochs what
      follows decides. */
  lemma {:induction false} EpochFirst(d: seq<byte>, x: seq<byte>, e: seq<byte>, y: seq<byte>)
    requires AllDigits(d) && AllDigits(e)
    ensures Value(d) < Value(e) ==> VersionCmp(d + [COLON] + x, e + [COLON] + y) == -1
    ensures Value(d) == Value(e) ==>
              VersionCmp(d + [COLON] + x, e + [COLON] + y) == VersionCmp([ZERO, COLON] + x, [ZERO, COLON] + y)
  {
    DigitsNoColon(d);
    DigitsNoColon(e);
    EpochOf(d, x);
    EpochOf(e, y);
    DigitRunsAreNumbers(d, e);
    assert [ZERO] + [COLON] == [ZERO, COLON];
    EpochOf([ZERO], x);
    EpochOf([ZERO], y);
    DigitRunsAreNumbers([ZERO], [ZERO]);
  }

  /** A version without an epoch has epoch 0. */
  lemma {:induction false} NoEpochIsZero(v: seq<byte>, w: seq<byte>)
    requires COLON !in v
    ensures VersionCmp(v, w) == VersionCmp([ZERO, COLON] + v, w)
  {
    assert [ZERO] + [COLON] == [ZERO, COLON];
    EpochOf([ZERO], v);
  }

  // ----- Inside a part

  ghost predicate StartsWithDigit(s: seq<byte>) {
    s != [] && IsDigit(s[0])
  }

  lemma {:induction false} PadCommon(p: seq<int>, a: seq<int>, b: seq<int>)
    ensures PadCmp(p + a, p + b) == PadCmp(a, b)
  {
    if p == [] {
      assert p + a == a && p + b == b;
    } else {
      PadUnfold(p + a, p + b);
      assert Tail(p + a) == p[1..] + a && Tail(p + b) == p[1..] + b;
      PadCommon(p[1..], a, b);
    }
  }

  lemma {:induction false} OrdersConcat(a: seq<byte>, b: seq<byte>)
    ensures Orders(a + b) == Orders(a) + Orders(b)
  {
  }

  lemma {:induction false} RunExtended(p: seq<byte>, x: seq<byte>, run: seq<byte>, digits: seq<byte>, rest: seq<byte>)
    requires (forall i :: 0 <= i < |p| ==> !IsDigit(p[i])) && Starts(x, run, digits, rest)
    ensures Starts(p + x, p + run, digits, rest)
  {
    assert p + x == p + run + digits + rest;
    forall i | 0 <= i < |p + run| ensures !IsDigit((p + run)[i]) {
      assert i >= |p| ==> (p + run)[i] == run[i - |p|];
    }
  }

  /** A common non-digit run in front does not matter. */
  lemma {:induction false} RunInFront(p: seq<byte>, x: seq<byte>, y: seq<byte>)
    requires forall i :: 0 <= i < |p| ==> !IsDigit(p[i])
    ensures PartCmp(p + x, p + y) == PartCmp(x, y)
  {
    if p == [] {
      assert p + x == x && p + y == y;
    } else if x == [] && y == [] {
      KeyReflexive(Blocks(p + x));
    } else {
      var (runX, digitsX, restX) := Runs(x);
      var (runY, digitsY, restY) := Runs(y);
      RunExtended(p, x, runX, digitsX, restX);
      RunExtended(p, y, runY, digitsY, restY);
      RoundStep(x, runX, digitsX, restX, y, runY, digitsY, restY);
      RoundStep(p + x, p + runX, digitsX, restX, p + y, p + runY, digitsY, restY);
      OrdersConcat(p, runX);
      OrdersConcat(p, runY);
      PadCommon(Orders(p), Orders(runX), Orders(runY));
    }
  }

  lemma {:induction false} BlockExtended(p: seq<byte>, run: seq<byte>, digits: seq<byte>, rest: seq<byte>, x: seq<byte>)
    requires Starts(p, run, digits, rest) && digits != [] && (rest == [] ==> !StartsWithDigit(x))
    ensures Starts(p + x, run, digits, rest + x)
  {
    assert p + x == run + digits + (rest + x);
  }

  /** What two parts have in common at the front does not matter, as long as
      it does not cut a number in two: the first difference decides. */
  lemma {:induction false} CommonFront(p: seq<byte>, x: seq<byte>, y: seq<byte>)
    requires p == [] || !IsDigit(p[|p| - 1]) || (!StartsWithDigit(x) && !StartsWithDigit(y))
    ensures PartCmp(p + x, p + y) == PartCmp(x, y)
    decreases |p|
  {
    var (run, digits, rest) := Runs(p);
    if digits == [] {
      assert p == run;
      RunInFront(p, x, y);
    } else {
      assert rest != [] ==> rest[|rest| - 1] == p[|p| - 1];
      assert rest == [] ==> digits[|digits| - 1] == p[|p| - 1];
      BlockExtended(p, run, digits, rest, x);
      BlockExtended(p, run, digits, rest, y);
      RoundStep(p + x, run, digits, rest + x, p + y, run, digits, rest + y);
      PadReflexive(Orders(run));
      LexAntisymmetric(TrimZeros(digits), TrimZeros(digits));
      CommonFront(rest, x, y);
    }
  }

  /** The tilde, then the end of the part, which the NUL byte stands for, then
      letters, then everything else. */
  function Group(c: byte): nat {
    if c == '~' as int then 0 else if c == 0 then 1
    else if 'a' as int <= c <= 'z' as int || 'A' as int <= c <= 'Z' as int then 2
    else 3
  }

  /** The earlier group, and within a group the lower byte. */
  ghost predicate SortsBefore(c: byte, d: byte) {
    Group(c) < Group(d) || (Group(c) == Group(d) && c < d)
  }

  lemma {:induction false} WeightsAreGroups(c: byte, d: byte)
    ensures CharOrder(c) < CharOrder(d) <==> SortsBefore(c, d)
  {
  }

  /** The first characters decide, unless they are digits. */
  lemma {:induction false} FirstCharacters(c: byte, x: seq<byte>, d: byte, y: seq<byte>)
    requires !IsDigit(c) && !IsDigit(d) && SortsBefore(c, d)
    ensures PartCmp([c] + x, [d] + y) == -1 && PartCmp([d] + y, [c] + x) == 1
  {
    WeightsAreGroups(c, d);
    var (runX, digitsX, restX) := Runs(x);
    var (runY, digitsY, restY) := Runs(y);
    RunExtended([c], x, runX, digitsX, restX);
    RunExtended([d], y, runY, digitsY, restY);
    RoundStep([c] + x, [c] + runX, digitsX, restX, [d] + y, [d] + runY, digitsY, restY);
    PadUnfold(Orders([c] + runX), Orders([d] + runY));
    KeyAntisymmetric(Blocks([c] + x), Blocks([d] + y));
  }

  /** A part that ends sorts before one that goes on, except with a tilde. */
  lemma {:induction false} EndSorts(c: byte, y: seq<byte>)
    requires !IsDigit(c) && c != 0
    ensures PartCmp([], [c] + y) == if c == '~' as int then 1 else -1
  {
    var (run, digits, rest) := Runs(y);
    RunExtended([c], y, run, digits, rest);
    assert Starts([], [], [], []);
    RoundStep([], [], [], [], [c] + y, [c] + run, digits, rest);
    PadUnfold(Orders([]), Orders([c] + run));
  }

  /** Numbers compare as numbers, and equal ones do not matter. */
  lemma {:induction false} FirstNumbers(d: seq<byte>, x: seq<byte>, e: seq<byte>, y: seq<byte>)
    requires AllDigits(d) && AllDigits(e) && d != [] && e != [] && !StartsWithDigit(x) && !StartsWithDigit(y)
    ensures PartCmp(d + x, e + y) == if Value(d) < Value(e) then -1 else if Value(d) > Value(e) then 1
                                     else PartCmp(x, y)
  {
    assert d + x == [] + d + x && e + y == [] + e + y;
    RoundStep(d + x, [], d, x, e + y, [], e, y);
    DigitRunsAreNumbers(d, e);
  }

  /** The end of a part counts as the number 0. */
  lemma {:induction false} EndIsZero(e: seq<byte>, y: seq<byte>)
    requires AllDigits(e) && e != [] && !StartsWithDigit(y)
    ensures PartCmp([], e + y) == if Value(e) > 0 then -1 else PartCmp([], y)
  {
    assert e + y == [] + e + y && Starts([], [], [], []);
    RoundStep([], [], [], [], e + y, [], e, y);
    DigitRunsAreNumbers([], e);
  }
}
