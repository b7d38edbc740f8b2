/** One block of the log store (internal/logstore): its text and the metadata
    that describes it. A character stands for one byte of a message. */
module LogBlock {
  import opened Common
  import opened Schema

  // ----- Levels

  function LowerChar(c: char): char {
    if 'A' <= c <= 'Z' then c - 'A' + 'a' else if c == '\U{0130}' then 'i' else c
  }

  function Lower(s: string): (r: string)
    ensures |r| == |s|
  {
    seq(|s|, i requires 0 <= i < |s| => LowerChar(s[i]))
  }

  /** The bit a level sets; unknown levels set none. */
  function LevelBit(level: string): Option<nat> {
    var l := Lower(level);
    if l == "debug" then Some(0)
    else if l == "info" then Some(1)
    else if l == "notice" then Some(2)
    else if l == "warn" || l == "warning" then Some(3)
    else if l == "error" then Some(4)
    else if l == "critical" then Some(5)
    else None
  }

  /** The names of levels and their bits. */
  const LEVELS: map<string, nat> := map[
    "debug" := 0, "info" := 1, "notice" := 2, "warn" := 3, "warning" := 3, "error" := 4, "critical" := 5]

  /** Equal up to the case of ASCII letters. */
  ghost predicate SameLetters(a: string, b: string) {
    |a| == |b| && forall i :: 0 <= i < |a| ==>
      || a[i] == b[i]
      || ('A' <= a[i] <= 'Z' && b[i] == a[i] - 'A' + 'a')
      || ('A' <= b[i] <= 'Z' && a[i] == b[i] - 'A' + 'a')
  }

  /** A level sets the bit of its name in any case; an unknown one none. */
  lemma {:induction false} LevelNames(level: string)
    ensures (forall name :: name in LEVELS && SameLetters(level, name) ==> LevelBit(level) == Some(LEVELS[name]))
    ensures LevelBit(level).Some? ==> Lower(level) in LEVELS && LevelBit(level).value == LEVELS[Lower(level)]
  {
    forall name | name in LEVELS && SameLetters(level, name) ensures Lower(level) == name {
      assert forall i :: 0 <= i < |name| ==> 'a' <= name[i] <= 'z';
      assert forall i :: 0 <= i < |name| ==> Lower(level)[i] == name[i];
    }
  }

  /** A bitmap, as the set of its one-bits. */
  type Bits = set<nat>

  /** Some line's level sets bit `b`. */
  ghost predicate SomeLine(lines: seq<LogLine>, b: nat) {
    exists i :: 0 <= i < |lines| && LevelBit(lines[i].level) == Some(b)
  }

  // ----- The text of a block

  /** Every message, each ended by a newline. */
  function Text(lines: seq<LogLine>): string {
    if lines == [] then [] else Text(lines[..|lines| - 1]) + lines[|lines| - 1].message + ['\n']
  }

  function Messages(lines: seq<LogLine>): (r: seq<string>)
    ensures |r| == |lines|
  {
    seq(|lines|, i requires 0 <= i < |lines| => lines[i].message)
  }

  /** What the store counts while it buffers lines. */
  function RawSize(lines: seq<LogLine>): (n: nat)
    ensures n >= |lines|
  {
    if lines == [] then 0 else RawSize(lines[..|lines| - 1]) + |lines[|lines| - 1].message| + 1
  }

  lemma {:induction false} TextSize(lines: seq<LogLine>)
    ensures |Text(lines)| == RawSize(lines)
  {
    if lines != [] {
      TextSize(lines[..|lines| - 1]);
    }
  }

  /** The newline-ended pieces of a text; `open` is the piece begun so far. */
  function Pieces(text: string, open: string): seq<string> {
    if text == [] then []
    else if text[0] == '\n' then [open] + Pieces(text[1..], [])
    else Pieces(text[1..], open + [text[0]])
  }

  function Newlines(text: string): nat {
    if text == [] then 0 else (if text[0] == '\n' then 1 else 0) + Newlines(text[1..])
  }

  lemma {:induction false} PieceCount(text: string, open: string)
    ensures |Pieces(text, open)| == Newlines(text)
    decreases |text|
  {
    if text != [] {
      PieceCount(text[1..], if text[0] == '\n' then [] else open + [text[0]]);
    }
  }

  lemma {:induction false} NewlinesConcat(a: string, b: string)
    ensures Newlines(a + b) == Newlines(a) + Newlines(b)
    decreases |a|
  {
    if a == [] {
      assert a + b == b;
    } else {
      assert (a + b)[1..] == a[1..] + b;
      NewlinesConcat(a[1..], b);
    }
  }

  lemma {:induction false} NewlinesZero(a: string)
    ensures Newlines(a) == 0 <==> '\n' !in a
    decreases |a|
  {
    if a != [] {
      NewlinesZero(a[1..]);
      assert a == [a[0]] + a[1..];
    }
  }

  /** Reading on from a finished message. */
  lemma {:induction false} PiecesOfMessage(open: string, message: string, rest: string)
    requires '\n' !in message
    ensures Pieces(message + ['\n'] + rest, open) == [open + message] + Pieces(rest, [])
    decreases |message|
  {
    var text := message + ['\n'] + rest;
    if message == [] {
      assert text[1..] == rest;
      assert open + message == open;
    } else {
      assert text[1..] == message[1..] + ['\n'] + rest;
      PiecesOfMessage(open + [message[0]], message[1..], rest);
      assert open + [message[0]] + message[1..] == open + message;
    }
  }

  lemma {:induction false} TextFirst(lines: seq<LogLine>)
    requires lines != []
    ensures Text(lines) == lines[0].message + ['\n'] + Text(lines[1..])
    decreases |lines|
  {
    var front, last := lines[..|lines| - 1], lines[|lines| - 1];
    if |lines| == 1 {
      assert Text(front) == [] && Text(lines[1..]) == [];
    } else {
      TextFirst(front);
      assert lines[1..][..|lines| - 2] == front[1..];
    }
  }

  lemma {:induction false} NewlinesOfText(lines: seq<LogLine>)
    ensures Newlines(Text(lines)) >= |lines|
    ensures Newlines(Text(lines)) == |lines| <==> forall i :: 0 <= i < |lines| ==> '\n' !in lines[i].message
    decreases |lines|
  {
    if lines != [] {
      var front, m := lines[..|lines| - 1], lines[|lines| - 1].message;
      NewlinesOfText(front);
      NewlinesConcat(Text(front) + m, ['\n']);
      NewlinesConcat(Text(front), m);
      NewlinesZero(m);
      assert Newlines(['\n']) == 1;
    }
  }

  lemma {:induction false} PiecesOfText(lines: seq<LogLine>)
    requires forall i :: 0 <= i < |lines| ==> '\n' !in lines[i].message
    ensures Pieces(Text(lines), []) == Messages(lines)
    decreases |lines|
  {
    if lines != [] {
      TextFirst(lines);
      PiecesOfMessage([], lines[0].message, Text(lines[1..]));
      PiecesOfText(lines[1..]);
      assert [] + lines[0].message == lines[0].message;
      assert Messages(lines) == [lines[0].message] + Messages(lines[1..]);
    }
  }

  /** A block's text gives its messages back exactly when none of them has a
      newline in it. */
  lemma {:induction false} TextRoundTripIff(lines: seq<LogLine>)
    ensures Pieces(Text(lines), []) == Messages(lines) <==> forall i :: 0 <= i < |lines| ==> '\n' !in lines[i].message
  {
    NewlinesOfText(lines);
    PieceCount(Text(lines), []);
    if forall i :: 0 <= i < |lines| ==> '\n' !in lines[i].message {
      PiecesOfText(lines);
    }
  }

  // ----- Metadata

  datatype BlockMeta = BlockMeta(
    blockId: string, hostId: string, source: string, tsMin: int, tsMax: int, unit: string,
    nLines: nat, levels: Bits, sizeRaw: nat, sizeCompressed: nat)

  ghost predicate TimesOf(lines: seq<LogLine>, tsMin: int, tsMax: int) {
    && (forall i :: 0 <= i < |lines| ==> tsMin <= lines[i].ts <= tsMax)
    && (exists i :: 0 <= i < |lines| && lines[i].ts == tsMin)
    && (exists i :: 0 <= i < |lines| && lines[i].ts == tsMax)
  }

  ghost predicate LevelsOf(lines: seq<LogLine>, levels: Bits) {
    forall b :: b in levels <==> SomeLine(lines, b)
  }

  /** The metadata says of the lines what it is meant to say. */
  ghost predicate Describes(m: BlockMeta, id: string, host: string, source: string, lines: seq<LogLine>,
                            zstd: string -> seq<int>)
  {
    && lines != []
    && m.blockId == id && m.hostId == host && m.source == source
    && TimesOf(lines, m.tsMin, m.tsMax) && LevelsOf(lines, m.levels)
    && m.unit == lines[0].unit && m.nLines == |lines|
    && m.sizeRaw == |Text(lines)| && m.sizeCompressed == |zstd(Text(lines))|
  }

  /** There is only one such metadata record. */
  lemma {:induction false} DescribesUnique(a: BlockMeta, b: BlockMeta, id: string, host: string, source: string,
                                           lines: seq<LogLine>, zstd: string -> seq<int>)
    requires Describes(a, id, host, source, lines, zstd) && Describes(b, id, host, source, lines, zstd)
    ensures a == b
  {
    assert a.levels == b.levels;
  }

  // ----- The metadata as a function of the lines

  function LeastTs(lines: seq<LogLine>): int
    requires lines != []
  {
    var last := |lines| - 1;
    if last == 0 || lines[last].ts < LeastTs(lines[..last]) then lines[last].ts else LeastTs(lines[..last])
  }

  function GreatestTs(lines: seq<LogLine>): int
    requires lines != []
  {
    var last := |lines| - 1;
    if last == 0 || lines[last].ts > GreatestTs(lines[..last]) then lines[last].ts else GreatestTs(lines[..last])
  }

  function LevelsIn(lines: seq<LogLine>): Bits {
    if lines == [] then {}
    else
      var bit := LevelBit(lines[|lines| - 1].level);
      LevelsIn(lines[..|lines| - 1]) + if bit.Some? then {bit.value} else {}
  }

  function MetaOf(id: string, host: string, source: string, lines: seq<LogLine>, zstd: string -> seq<int>): BlockMeta
    requires lines != []
  {
    BlockMeta(id, host, source, LeastTs(lines), GreatestTs(lines), lines[0].unit, |lines|, LevelsIn(lines),
              |Text(lines)|, |zstd(Text(lines))|)
  }

  lemma {:induction false} LeastIs(lines: seq<LogLine>)
    requires lines != []
    ensures forall i :: 0 <= i < |lines| ==> LeastTs(lines) <= lines[i].ts
    ensures exists i :: 0 <= i < |lines| && lines[i].ts == LeastTs(lines)
    decreases |lines|
  {
    var last := |lines| - 1;
    if last > 0 {
      LeastIs(lines[..last]);
      var i :| 0 <= i < last && lines[..last][i].ts == LeastTs(lines[..last]);
      assert lines[i].ts == LeastTs(lines[..last]);
      assert lines[i].ts == LeastTs(lines) || lines[last].ts == LeastTs(lines);
      forall k | 0 <= k < |lines| ensures LeastTs(lines) <= lines[k].ts {
        assert k < last ==> lines[..last][k] == lines[k];
      }
    } else {
      assert lines[0].ts == LeastTs(lines);
    }
  }

  lemma {:induction false} GreatestIs(lines: seq<LogLine>)
    requires lines != []
    ensures forall i :: 0 <= i < |lines| ==> lines[i].ts <= GreatestTs(lines)
    ensures exists i :: 0 <= i < |lines| && lines[i].ts == GreatestTs(lines)
    decreases |lines|
  {
    var last := |lines| - 1;
    if last > 0 {
      GreatestIs(lines[..last]);
      var i :| 0 <= i < last && lines[..last][i].ts == GreatestTs(lines[..last]);
      assert lines[i].ts == GreatestTs(lines[..last]);
      assert lines[i].ts == GreatestTs(lines) || lines[last].ts == GreatestTs(lines);
      forall k | 0 <= k < |lines| ensures lines[k].ts <= GreatestTs(lines) {
        assert k < last ==> lines[..last][k] == lines[k];
      }
    } else {
      assert lines[0].ts == GreatestTs(lines);
    }
  }

  lemma {:induction false} LevelsAre(lines: seq<LogLine>)
    ensures LevelsOf(lines, LevelsIn(lines))
    decreases |lines|
  {
    if lines != [] {
      var last := |lines| - 1;
      LevelsAre(lines[..last]);
      LevelsExtend(lines, last, LevelsIn(lines[..last]));
      assert lines[..last + 1] == lines;
    }
  }

  /** It describes the lines, so it is what writing them records. */
  lemma {:induction false} MetaDescribes(id: string, host: string, source: string, lines: seq<LogLine>,
                                         zstd: string -> seq<int>)
    requires lines != []
    ensures Describes(MetaOf(id, host, source, lines, zstd), id, host, source, lines, zstd)
  {
    LeastIs(lines);
    GreatestIs(lines);
    LevelsAre(lines);
  }

  /** The loop of writeBlock over the lines. */
  method Summarize(lines: seq<LogLine>) returns (raw: string, tsMin: int, tsMax: int, levels: Bits)
    requires lines != []
    ensures raw == Text(lines) && TimesOf(lines, tsMin, tsMax) && LevelsOf(lines, levels)
  {
    raw, tsMin, tsMax, levels := [], lines[0].ts, lines[0].ts, {};
    ghost var lo, hi := 0, 0;
    for i := 0 to |lines|
      invariant raw == Text(lines[..i])
      invariant forall j :: 0 <= j < i ==> tsMin <= lines[j].ts <= tsMax
      invariant 0 <= lo < |lines| && lines[lo].ts == tsMin
      invariant 0 <= hi < |lines| && lines[hi].ts == tsMax
      invariant tsMin <= lines[0].ts <= tsMax
      invariant LevelsOf(lines[..i], levels)
    {
      var l := lines[i];
      assert lines[..i + 1][..i] == lines[..i];
      raw := raw + l.message + ['\n'];
      if l.ts < tsMin {
        tsMin := l.ts;
        lo := i;
      }
      if l.ts > tsMax {
        tsMax := l.ts;
        hi := i;
      }
      levels := AddLevel(lines, i, levels);
    }
    assert lines[..|lines|] == lines;
  }

  method AddLevel(lines: seq<LogLine>, i: nat, levels: Bits) returns (more: Bits)
    requires i < |lines| && LevelsOf(lines[..i], levels)
    ensures LevelsOf(lines[..i + 1], more)
  {
    LevelsExtend(lines, i, levels);
    more := levels;
    var bit := LevelBit(lines[i].level);
    if bit.Some? {
      more := more + {bit.value};
    }
  }

  lemma {:induction false} LevelsExtend(lines: seq<LogLine>, i: nat, levels: Bits)
    requires i < |lines| && LevelsOf(lines[..i], levels)
    ensures var bit := LevelBit(lines[i].level);
            LevelsOf(lines[..i + 1], if bit.Some? then levels + {bit.value} else levels)
  {
    var bit := LevelBit(lines[i].level);
    forall b: nat ensures SomeLine(lines[..i + 1], b) <==> SomeLine(lines[..i], b) || bit == Some(b) {
      assert lines[..i + 1][i] == lines[i];
      if j :| 0 <= j < i && LevelBit(lines[..i][j].level) == Some(b) {
        assert lines[..i + 1][j] == lines[j];
      }
    }
  }
}
