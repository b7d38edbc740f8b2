/** The version comparison is a total preorder on all byte strings, with a
    canonical key for its equivalence classes. */
module DebOrder {
  import opened Common
  import opened DebVersion

  // ----- Weights

  function Tail<T>(s: seq<T>): seq<T> {
    if s == [] then [] else s[1..]
  }

  function Head(s: seq<int>): int {
    if s == [] then 0 else s[0]
  }

  lemma {:induction false} PadAntisymmetric(a: seq<int>, b: seq<int>)
    ensures PadCmp(a, b) == -PadCmp(b, a) && -1 <= PadCmp(a, b) <= 1
    decreases |a| + |b|
  {
    if a != [] || b != [] {
      PadAntisymmetric(Tail(a), Tail(b));
    }
  }

  lemma {:induction false} PadReflexive(a: seq<int>)
    ensures PadCmp(a, a) == 0
  {
    if a != [] {
      PadReflexive(a[1..]);
    }
  }

  lemma {:induction false} PadTransitive(a: seq<int>, b: seq<int>, c: seq<int>)
    requires PadCmp(a, b) <= 0 && PadCmp(b, c) <= 0
    ensures PadCmp(a, c) <= 0
    ensures PadCmp(a, c) == 0 ==> PadCmp(a, b) == 0 && PadCmp(b, c) == 0
    decreases |a| + |b| + |c|
  {
    if a != [] || b != [] || c != [] {
      PadUnfold(a, b);
      PadUnfold(b, c);
      PadUnfold(a, c);
      if Head(a) == Head(b) == Head(c) {
        PadTransitive(Tail(a), Tail(b), Tail(c));
      }
    }
  }

  lemma {:induction false} PadUnfold(a: seq<int>, b: seq<int>)
    ensures PadCmp(a, b) == if Head(a) != Head(b) then Sign(Head(a), Head(b)) else PadCmp(Tail(a), Tail(b))
  {
  }

  // ----- Blocks

  function HeadBlock(s: seq<Block>): Block {
    if s == [] then NOTHING else s[0]
  }

  lemma {:induction false} BlockTransitive(a: Block, b: Block, c: Block)
    requires BlockCmp(a, b) <= 0 && BlockCmp(b, c) <= 0
    ensures BlockCmp(a, c) <= 0
    ensures BlockCmp(a, c) == 0 ==> BlockCmp(a, b) == 0 && BlockCmp(b, c) == 0
  {
    PadTransitive(a.orders, b.orders, c.orders);
  }

  lemma {:induction false} KeyUnfold(a: seq<Block>, b: seq<Block>)
    ensures KeyCmp(a, b) == if BlockCmp(HeadBlock(a), HeadBlock(b)) != 0 then BlockCmp(HeadBlock(a), HeadBlock(b))
                            else KeyCmp(Tail(a), Tail(b))
  {
  }

  lemma {:induction false} KeyAntisymmetric(a: seq<Block>, b: seq<Block>)
    ensures KeyCmp(a, b) == -KeyCmp(b, a) && -1 <= KeyCmp(a, b) <= 1
    decreases |a| + |b|
  {
    if a != [] || b != [] {
      PadAntisymmetric(HeadBlock(a).orders, HeadBlock(b).orders);
      KeyUnfold(a, b);
      KeyUnfold(b, a);
      KeyAntisymmetric(Tail(a), Tail(b));
    }
  }

  lemma {:induction false} KeyReflexive(a: seq<Block>)
    ensures KeyCmp(a, a) == 0
  {
    if a != [] {
      PadReflexive(a[0].orders);
      KeyReflexive(a[1..]);
    }
  }

  lemma {:induction false} KeyTransitive(a: seq<Block>, b: seq<Block>, c: seq<Block>)
    requires KeyCmp(a, b) <= 0 && KeyCmp(b, c) <= 0
    ensures KeyCmp(a, c) <= 0
    ensures KeyCmp(a, c) == 0 ==> KeyCmp(a, b) == 0 && KeyCmp(b, c) == 0
    decreases |a| + |b| + |c|
  {
    if a != [] || b != [] || c != [] {
      KeyUnfold(a, b);
      KeyUnfold(b, c);
      KeyUnfold(a, c);
      BlockTransitive(HeadBlock(a), HeadBlock(b), HeadBlock(c));
      if BlockCmp(HeadBlock(a), HeadBlock(b)) == 0 && BlockCmp(HeadBlock(b), HeadBlock(c)) == 0 {
        KeyTransitive(Tail(a), Tail(b), Tail(c));
      }
    }
  }

  // ----- Epochs

  lemma {:induction false} LexAntisymmetric(a: seq<byte>, b: seq<byte>)
    ensures Lex(a, b) == -Lex(b, a) && -1 <= Lex(a, b) <= 1
    ensures Lex(a, b) == 0 <==> a == b
  {
    if a != [] && b != [] {
      LexAntisymmetric(a[1..], b[1..]);
      assert a[0] == b[0] && a[1..] == b[1..] ==> a == [a[0]] + a[1..] == b;
    }
  }

  lemma {:induction false} LexTransitive(a: seq<byte>, b: seq<byte>, c: seq<byte>)
    requires Lex(a, b) <= 0 && Lex(b, c) <= 0
    ensures Lex(a, c) <= 0
    ensures Lex(a, c) == 0 ==> Lex(a, b) == 0 && Lex(b, c) == 0
  {
    if a != [] && b != [] && c != [] && a[0] == b[0] == c[0] {
      LexTransitive(a[1..], b[1..], c[1..]);
    }
  }

  lemma {:induction false} ShortLexTransitive(a: seq<byte>, b: seq<byte>, c: seq<byte>)
    requires ShortLex(a, b) <= 0 && ShortLex(b, c) <= 0
    ensures ShortLex(a, c) <= 0
    ensures ShortLex(a, c) == 0 ==> ShortLex(a, b) == 0 && ShortLex(b, c) == 0
  {
    if |a| == |b| == |c| {
      LexTransitive(a, b, c);
    }
  }

  // ----- Versions

  lemma {:induction false} SplitAntisymmetric(x: Version, y: Version)
    ensures SplitCmp(x, y) == -SplitCmp(y, x) && -1 <= SplitCmp(x, y) <= 1
  {
    LexAntisymmetric(TrimZeros(x.epoch), TrimZeros(y.epoch));
    KeyAntisymmetric(Blocks(x.upstream), Blocks(y.upstream));
    KeyAntisymmetric(Blocks(x.revision), Blocks(y.revision));
  }

  /** Every two versions are comparable, and swapping them swaps the sign. */
  lemma {:induction false} VersionAntisymmetric(a: seq<byte>, b: seq<byte>)
    ensures VersionCmp(a, b) == -VersionCmp(b, a) && -1 <= VersionCmp(a, b) <= 1
  {
    SplitAntisymmetric(Split(a), Split(b));
  }

  lemma {:induction false} VersionReflexive(a: seq<byte>)
    ensures VersionCmp(a, a) == 0
  {
    SplitAntisymmetric(Split(a), Split(a));
  }

  lemma {:induction false} SplitTransitive(x: Version, y: Version, z: Version)
    requires SplitCmp(x, y) <= 0 && SplitCmp(y, z) <= 0
    ensures SplitCmp(x, z) <= 0
    ensures SplitCmp(x, z) == 0 ==> SplitCmp(x, y) == 0 && SplitCmp(y, z) == 0
  {
    var p, q, r := TrimZeros(x.epoch), TrimZeros(y.epoch), TrimZeros(z.epoch);
    ShortLexTransitive(p, q, r);
    if ShortLex(p, q) == 0 && ShortLex(q, r) == 0 {
      KeyTransitive(Blocks(x.upstream), Blocks(y.upstream), Blocks(z.upstream));
      if PartCmp(x.upstream, y.upstream) == 0 && PartCmp(y.upstream, z.upstream) == 0 {
        KeyTransitive(Blocks(x.revision), Blocks(y.revision), Blocks(z.revision));
      }
    }
  }

  lemma {:induction false} VersionTransitive(a: seq<byte>, b: seq<byte>, c: seq<byte>)
    requires VersionCmp(a, b) <= 0 && VersionCmp(b, c) <= 0
    ensures VersionCmp(a, c) <= 0
    ensures VersionCmp(a, c) == 0 ==> VersionCmp(a, b) == 0 && VersionCmp(b, c) == 0
  {
    SplitTransitive(Split(a), Split(b), Split(c));
  }

  // ----- Canonical keys

  /** Weights without the trailing zeros that padding would add anyway. */
  function StripOrders(s: seq<int>): seq<int> {
    if s == [] then []
    else
      var rest := StripOrders(s[1..]);
      if rest == [] && s[0] == 0 then [] else [s[0]] + rest
  }

  function StripBlock(b: Block): Block {
    Block(StripOrders(b.orders), b.num)
  }

  function StripBlocks(s: seq<Block>): seq<Block> {
    if s == [] then []
    else
      var rest := StripBlocks(s[1..]);
      if rest == [] && StripBlock(s[0]) == NOTHING then [] else [StripBlock(s[0])] + rest
  }

  lemma {:induction false} StripOrdersUnfold(s: seq<int>)
    ensures StripOrders(s)
         == if StripOrders(Tail(s)) == [] && Head(s) == 0 then [] else [Head(s)] + StripOrders(Tail(s))
  {
  }

  lemma {:induction false} PadZeroIffSame(a: seq<int>, b: seq<int>)
    ensures PadCmp(a, b) == 0 <==> StripOrders(a) == StripOrders(b)
    decreases |a| + |b|
  {
    if a != [] || b != [] {
      PadUnfold(a, b);
      PadZeroIffSame(Tail(a), Tail(b));
      StripOrdersUnfold(a);
      StripOrdersUnfold(b);
      SameCons(Head(a), StripOrders(Tail(a)), Head(b), StripOrders(Tail(b)));
    }
  }

  lemma SameCons<T>(x: T, s: seq<T>, y: T, t: seq<T>)
    ensures [x] + s == [y] + t <==> x == y && s == t
  {
    if [x] + s == [y] + t {
      assert ([x] + s)[0] == ([y] + t)[0] && ([x] + s)[1..] == ([y] + t)[1..];
      assert ([x] + s)[1..] == s && ([y] + t)[1..] == t;
    }
  }

  lemma {:induction false} StripBlocksUnfold(s: seq<Block>)
    ensures StripBlocks(s) == if StripBlocks(Tail(s)) == [] && StripBlock(HeadBlock(s)) == NOTHING then []
                              else [StripBlock(HeadBlock(s))] + StripBlocks(Tail(s))
  {
  }

  lemma {:induction false} KeyZeroIffSame(a: seq<Block>, b: seq<Block>)
    ensures KeyCmp(a, b) == 0 <==> StripBlocks(a) == StripBlocks(b)
    decreases |a| + |b|
  {
    if a != [] || b != [] {
      KeyUnfold(a, b);
      KeyZeroIffSame(Tail(a), Tail(b));
      PadZeroIffSame(HeadBlock(a).orders, HeadBlock(b).orders);
      StripBlocksUnfold(a);
      StripBlocksUnfold(b);
      SameCons(StripBlock(HeadBlock(a)), StripBlocks(Tail(a)), StripBlock(HeadBlock(b)), StripBlocks(Tail(b)));
    }
  }

  datatype Key = Key(epoch: seq<byte>, upstream: seq<Block>, revision: seq<Block>)

  function SplitKey(x: Version): Key {
    Key(TrimZeros(x.epoch), StripBlocks(Blocks(x.upstream)), StripBlocks(Blocks(x.revision)))
  }

  function KeyOf(v: seq<byte>): Key {
    SplitKey(Split(v))
  }

  lemma {:induction false} SplitEqualIffSameKey(x: Version, y: Version)
    ensures SplitCmp(x, y) == 0 <==> SplitKey(x) == SplitKey(y)
  {
    LexAntisymmetric(TrimZeros(x.epoch), TrimZeros(y.epoch));
    KeyZeroIffSame(Blocks(x.upstream), Blocks(y.upstream));
    KeyZeroIffSame(Blocks(x.revision), Blocks(y.revision));
  }

  /** Two versions compare equal exactly when their canonical keys agree. */
  lemma {:induction false} EqualIffSameKey(a: seq<byte>, b: seq<byte>)
    ensures VersionCmp(a, b) == 0 <==> KeyOf(a) == KeyOf(b)
  {
    SplitEqualIffSameKey(Split(a), Split(b));
  }

  // ----- What the Policy Manual promises

  /** '~' sorts before everything, even the end of the part. */
  lemma {:induction false} TildeSortsFirst(v: seq<byte>, w: seq<byte>)
    ensures PartCmp(v + [TILDE] + w, v) == -1
    decreases |v|
  {
    var a := v + [TILDE] + w;
    var (run, digits, rest) := Runs(v);
    if digits == [] {
      TildeInRun(v, w);
    } else {
      assert a == run + digits + (rest + [TILDE] + w);
      assert Starts(a, run, digits, rest + [TILDE] + w);
      RoundStep(a, run, digits, rest + [TILDE] + w, v, run, digits, rest);
      PadReflexive(Orders(run));
      LexAntisymmetric(TrimZeros(digits), TrimZeros(digits));
      TildeSortsFirst(rest, w);
    }
  }

  /** The case where `v` is a single non-digit run. */
  lemma {:induction false} TildeInRun(v: seq<byte>, w: seq<byte>)
    requires forall i :: 0 <= i < |v| ==> !IsDigit(v[i])
    ensures PartCmp(v + [TILDE] + w, v) == -1
  {
    var (more, digits, rest) := Runs(w);
    TildeStarts(v, w, more, digits, rest);
    assert v == v + [] + [];
    RoundStep(v + [TILDE] + w, v + [TILDE] + more, digits, rest, v, v, [], []);
    TildeOrders(v, more);
    PadPrefix(Orders(v), -1, Orders(more));
  }

  lemma {:induction false} Cuts(s: seq<byte>, n: nat, m: nat)
    requires n == NonDigits(s) && m == Digits(s[n..])
    ensures Starts(s, s[..n], s[n..][..m], s[n..][m..])
  {
    ThreeParts(s, n, m);
  }

  lemma ThreeParts(s: seq<byte>, n: nat, m: nat)
    requires n + m <= |s|
    ensures s == s[..n] + s[n..][..m] + s[n..][m..]
  {
  }

  /** The two leading runs and the rest. */
  function Runs(s: seq<byte>): (r: (seq<byte>, seq<byte>, seq<byte>))
    ensures Starts(s, r.0, r.1, r.2)
  {
    var n := NonDigits(s);
    var m := Digits(s[n..]);
    Cuts(s, n, m);
    (s[..n], s[n..][..m], s[n..][m..])
  }

  lemma {:induction false} TildeOrders(v: seq<byte>, more: seq<byte>)
    ensures Orders(v + [TILDE] + more) == Orders(v) + [-1] + Orders(more)
  {
  }

  lemma {:induction false} TildeStarts(v: seq<byte>, w: seq<byte>, more: seq<byte>, digits: seq<byte>, rest: seq<byte>)
    requires forall i :: 0 <= i < |v| ==> !IsDigit(v[i])
    requires Starts(w, more, digits, rest)
    ensures Starts(v + [TILDE] + w, v + [TILDE] + more, digits, rest)
  {
    var a, b := v + [TILDE] + w, v + [TILDE] + more;
    assert a == b + digits + rest;
    forall i | 0 <= i < |b| ensures !IsDigit(b[i]) {
      assert i > |v| ==> b[i] == more[i - |v| - 1];
    }
  }

  lemma {:induction false} PadPrefix(a: seq<int>, x: int, b: seq<int>)
    requires x < 0
    ensures PadCmp(a + [x] + b, a) == -1
  {
    PadUnfold(a + [x] + b, a);
    if a != [] {
      assert Tail(a + [x] + b) == a[1..] + [x] + b;
      PadPrefix(a[1..], x, b);
    }
  }

  /** A version without a revision equals the same version with revision 0. */
  lemma {:induction false} NoRevisionIsZero(v: seq<byte>)
    requires HYPHEN !in v
    ensures VersionCmp(v, v + [HYPHEN, ZERO]) == 0
  {
    EpochExtended(v);
    var (epoch, rest) := SplitEpoch(v);
    RevisionExtended(rest);
    EmptyEqualsZero();
    KeyReflexive(Blocks(rest));
    LexAntisymmetric(TrimZeros(epoch), TrimZeros(epoch));
  }

  lemma {:induction false} EmptyEqualsZero()
    ensures PartCmp([], [ZERO]) == 0
  {
    var none: seq<byte> := [];
    assert [ZERO] == none + [ZERO] + none && none == none + none + none;
    assert Starts([ZERO], [], [ZERO], []) && Starts([], [], [], []);
    RoundStep([], [], [], [], [ZERO], [], [ZERO], []);
    assert TrimZeros([ZERO]) == TrimZeros([]) == [];
  }

  lemma {:induction false} EpochExtended(v: seq<byte>)
    requires HYPHEN !in v
    ensures SplitEpoch(v + [HYPHEN, ZERO]) == (SplitEpoch(v).0, SplitEpoch(v).1 + [HYPHEN, ZERO])
    ensures HYPHEN !in SplitEpoch(v).1
  {
    var v' := v + [HYPHEN, ZERO];
    IndexOfExtended(v, [HYPHEN, ZERO], COLON);
    var i := IndexOf(v, COLON);
    if i >= 0 {
      assert v'[..i] == v[..i] && v'[i + 1..] == v[i + 1..] + [HYPHEN, ZERO];
    }
  }

  lemma {:induction false} RevisionExtended(s: seq<byte>)
    requires HYPHEN !in s
    ensures SplitRevision(s + [HYPHEN, ZERO]) == (s, [ZERO]) && SplitRevision(s) == (s, [])
  {
    var t := s + [HYPHEN, ZERO];
    LastHyphen(s);
    assert t[..|s|] == s && t[|s| + 1..] == [ZERO];
  }

  lemma {:induction false} IndexOfExtended(s: seq<byte>, t: seq<byte>, c: byte)
    requires c !in t
    ensures IndexOf(s + t, c) == IndexOf(s, c)
  {
    if s == [] {
      assert s + t == t;
    } else {
      assert (s + t)[1..] == s[1..] + t;
      IndexOfExtended(s[1..], t, c);
    }
  }

  lemma {:induction false} LastHyphen(s: seq<byte>)
    requires HYPHEN !in s
    ensures LastIndexOf(s + [HYPHEN, ZERO], HYPHEN) == |s| && LastIndexOf(s, HYPHEN) == -1
  {
    var t := s + [HYPHEN, ZERO];
    assert t[..|t| - 1] == s + [HYPHEN];
    assert LastIndexOf(t, HYPHEN) == LastIndexOf(s + [HYPHEN], HYPHEN);
  }
}
