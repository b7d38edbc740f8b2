/** The text that stands for a label set (internal/metricstore). */
module SeriesKey {
  import opened Sorting

  type Labels = map<string, string>

  /** The names of a label set, sorted. */
  ghost predicate Names(labels: Labels, names: seq<string>) {
    Sorted(LessString, names) && forall k :: k in names <==> k in labels
  }

  function Render(labels: Labels, names: seq<string>): string
    requires forall k :: k in names ==> k in labels
  {
    if names == [] then ""
    else names[0] + "=" + labels[names[0]] + ";" + Render(labels, names[1..])
  }

  lemma {:induction false} RenderAppend(labels: Labels, names: seq<string>, k: string)
    requires k in labels && forall n :: n in names ==> n in labels
    ensures Render(labels, names + [k]) == Render(labels, names) + (k + "=" + labels[k] + ";")
  {
    if names == [] {
      assert names + [k] == [k] && [k][1..] == [];
    } else {
      assert (names + [k])[1..] == names[1..] + [k];
      RenderAppend(labels, names[1..], k);
    }
  }

  /** The key is that of the label set. */
  ghost predicate IsKey(labels: Labels, key: string) {
    exists names :: Names(labels, names) && key == Render(labels, names)
  }

  method SeriesLabelKey(labels: Labels) returns (key: string)
    ensures IsKey(labels, key)
  {
    StringOrder();
    var names: seq<string> := [];
    var todo := labels.Keys;
    while todo != {}
      invariant todo <= labels.Keys
      invariant Sorted(LessString, names) && forall k :: k in names <==> k in labels.Keys - todo
      decreases todo
    {
      var k :| k in todo;
      names := Insert(LessString, names, k);
      todo := todo - {k};
    }
    key := WriteLabels(labels, names);
  }

  method WriteLabels(labels: Labels, names: seq<string>) returns (key: string)
    requires forall k :: k in names ==> k in labels
    ensures key == Render(labels, names)
  {
    key := "";
    for i := 0 to |names|
      invariant forall k :: k in names[..i] ==> k in labels
      invariant key == Render(labels, names[..i])
    {
      assert names[i] in names;
      RenderAppend(labels, names[..i], names[i]);
      assert names[..i + 1] == names[..i] + [names[i]];
      key := key + (names[i] + "=" + labels[names[i]] + ";");
    }
    assert names[..|names|] == names;
  }

  /** Each label set has one key. */
  lemma {:induction false} KeyUnique(labels: Labels, a: string, b: string)
    requires IsKey(labels, a) && IsKey(labels, b)
    ensures a == b
  {
    StringOrder();
    var x :| Names(labels, x) && a == Render(labels, x);
    var y :| Names(labels, y) && b == Render(labels, y);
    SortedUnique(LessString, x, y);
  }

  lemma {:induction false} NamesExist(keys: set<string>) returns (names: seq<string>)
    ensures Sorted(LessString, names) && forall k :: k in names <==> k in keys
  {
    if keys == {} {
      names := [];
    } else {
      var k :| k in keys;
      names := NamesExist(keys - {k});
      StringOrder();
      names := Insert(LessString, names, k);
    }
  }

  /** The key of a label set. */
  ghost function KeyOf(labels: Labels): (key: string)
    ensures IsKey(labels, key)
  {
    KeyExists(labels);
    var key :| IsKey(labels, key);
    key
  }

  lemma {:induction false} KeyExists(labels: Labels)
    ensures exists key :: IsKey(labels, key)
  {
    var names := NamesExist(labels.Keys);
    assert Names(labels, names);
    assert IsKey(labels, Render(labels, names));
  }

  // ----- When different label sets have different keys

  /** Names without '=' and values without ';'. */
  ghost predicate Plain(labels: Labels) {
    forall k :: k in labels ==> '=' !in k && ';' !in labels[k]
  }

  /** A text up to the first `c` is determined by the whole. */
  lemma {:induction false} FirstCut(a: string, rest: string, a': string, rest': string, c: char)
    requires c !in a && c !in a' && a + [c] + rest == a' + [c] + rest'
    ensures a == a' && rest == rest'
  {
    var t := a + [c] + rest;
    assert t[|a|] == c && t[|a'|] == c;
    assert forall i :: 0 <= i < |a| ==> t[i] == a[i];
    assert forall i :: 0 <= i < |a'| ==> t[i] == a'[i];
    assert |a| == |a'|;
    assert a == t[..|a|] && a' == t[..|a'|];
    assert rest == t[|a| + 1..] && rest' == t[|a'| + 1..];
  }

  lemma {:induction false} RenderInjective(a: Labels, x: seq<string>, b: Labels, y: seq<string>)
    requires Plain(a) && Plain(b)
    requires (forall k :: k in x ==> k in a) && (forall k :: k in y ==> k in b)
    requires Render(a, x) == Render(b, y)
    ensures x == y && forall k :: k in x ==> a[k] == b[k]
    decreases |x|
  {
    if x != [] && y != [] {
      var k, v, r := x[0], a[x[0]], Render(a, x[1..]);
      var k', v', r' := y[0], b[y[0]], Render(b, y[1..]);
      assert k + "=" + (v + ";" + r) == Render(a, x) && k' + "=" + (v' + ";" + r') == Render(b, y);
      FirstCut(k, v + ";" + r, k', v' + ";" + r', '=');
      FirstCut(v, r, v', r', ';');
      RenderInjective(a, x[1..], b, y[1..]);
      assert x == [k] + x[1..] && y == [k'] + y[1..];
    }
  }

  /** Plain label sets are told apart by their keys. */
  lemma {:induction false} KeyInjective(a: Labels, b: Labels, key: string)
    requires Plain(a) && Plain(b) && IsKey(a, key) && IsKey(b, key)
    ensures a == b
  {
    var x :| Names(a, x) && key == Render(a, x);
    var y :| Names(b, y) && key == Render(b, y);
    RenderInjective(a, x, b, y);
    assert a.Keys == b.Keys;
  }

  /** Names without ';' and values without '='. */
  ghost predicate Mirrored(labels: Labels) {
    forall k :: k in labels ==> ';' !in k && '=' !in labels[k]
  }

  /** A text after the last `c` is determined by the whole. */
  lemma {:induction false} LastCut(a: string, rest: string, a': string, rest': string, c: char)
    requires c !in rest && c !in rest' && a + [c] + rest == a' + [c] + rest'
    ensures a == a' && rest == rest'
  {
    var t := a + [c] + rest;
    assert t[|a|] == c && t[|a'|] == c;
    assert forall i :: |a| < i < |t| ==> t[i] == rest[i - |a| - 1];
    assert forall i :: |a'| < i < |t| ==> t[i] == rest'[i - |a'| - 1];
    assert |a| == |a'|;
    assert a == t[..|a|] && a' == t[..|a'|];
    assert rest == t[|a| + 1..] && rest' == t[|a'| + 1..];
  }

  ghost predicate EndsLabel(text: string) {
    text == "" || text[|text| - 1] == ';'
  }

  lemma {:induction false} NameAfterLabels(p: string, k: string, p': string, k': string)
    requires EndsLabel(p) && EndsLabel(p') && ';' !in k && ';' !in k' && p + k == p' + k'
    ensures p == p' && k == k'
  {
    var t := p + k;
    assert forall i :: |p| <= i < |t| ==> t[i] == k[i - |p|];
    assert forall i :: |p'| <= i < |t| ==> t[i] == k'[i - |p'|];
    assert p != "" ==> t[|p| - 1] == ';';
    assert p' != "" ==> t[|p'| - 1] == ';';
    assert p == t[..|p|] && p' == t[..|p'|] && k == t[|p|..] && k' == t[|p'|..];
  }

  lemma {:induction false} RenderEnds(labels: Labels, x: seq<string>)
    requires forall k :: k in x ==> k in labels
    ensures EndsLabel(Render(labels, x)) && (Render(labels, x) == "" ==> x == [])
  {
    if x != [] {
      RenderEnds(labels, x[1..]);
    }
  }

  /** The last label stands out: its value after the last '=', its name
      between that and the label before. */
  lemma {:induction false} SameLast(a: Labels, x: seq<string>, k: string, b: Labels, y: seq<string>, k': string)
    requires Mirrored(a) && Mirrored(b) && k in a && k' in b
    requires (forall n :: n in x ==> n in a) && (forall n :: n in y ==> n in b)
    requires Render(a, x + [k]) == Render(b, y + [k'])
    ensures Render(a, x) == Render(b, y) && k == k' && a[k] == b[k']
  {
    var p, p' := Render(a, x), Render(b, y);
    RenderAppend(a, x, k);
    RenderAppend(b, y, k');
    assert p + k + "=" + (a[k] + ";") == Render(a, x + [k]) && p' + k' + "=" + (b[k'] + ";") == Render(b, y + [k']);
    LastCut(p + k, a[k] + ";", p' + k', b[k'] + ";", '=');
    assert a[k] == (a[k] + ";")[..|a[k]|] && b[k'] == (b[k'] + ";")[..|b[k']|];
    RenderEnds(a, x);
    RenderEnds(b, y);
    NameAfterLabels(p, k, p', k');
  }

  lemma {:induction false} RenderInjectiveBack(a: Labels, x: seq<string>, b: Labels, y: seq<string>)
    requires Mirrored(a) && Mirrored(b)
    requires (forall k :: k in x ==> k in a) && (forall k :: k in y ==> k in b)
    requires Render(a, x) == Render(b, y)
    ensures x == y && forall k :: k in x ==> a[k] == b[k]
    decreases |x|
  {
    RenderEnds(a, x);
    RenderEnds(b, y);
    if x != [] && y != [] {
      var u, k, v, k' := x[..|x| - 1], x[|x| - 1], y[..|y| - 1], y[|y| - 1];
      Unsnoc(x, u, k);
      Unsnoc(y, v, k');
      SameLast(a, u, k, b, v, k');
      RenderInjectiveBack(a, u, b, v);
    }
  }

  lemma {:induction false} Unsnoc(x: seq<string>, u: seq<string>, k: string)
    requires x != [] && u == x[..|x| - 1] && k == x[|x| - 1]
    ensures x == u + [k] && forall n :: n in x <==> n in u || n == k
  {
  }

  /** So are label sets whose names lack ';' and whose values lack '='. */
  lemma {:induction false} KeyInjectiveBack(a: Labels, b: Labels, key: string)
    requires Mirrored(a) && Mirrored(b) && IsKey(a, key) && IsKey(b, key)
    ensures a == b
  {
    var x :| Names(a, x) && key == Render(a, x);
    var y :| Names(b, y) && key == Render(b, y);
    RenderInjectiveBack(a, x, b, y);
    assert a.Keys == b.Keys;
  }

  // ----- Exactly which alphabets tell label sets apart

  predicate AllIn(s: string, alphabet: set<char>) {
    forall i :: 0 <= i < |s| ==> s[i] in alphabet
  }

  /** Names over one alphabet, values over another. */
  ghost predicate Over(labels: Labels, names: set<char>, values: set<char>) {
    forall k :: k in labels ==> AllIn(k, names) && AllIn(labels[k], values)
  }

  ghost predicate TellApart(names: set<char>, values: set<char>) {
    forall a, b, key :: Over(a, names, values) && Over(b, names, values) && IsKey(a, key) && IsKey(b, key) ==> a == b
  }

  /** What can follow a label: nothing, or a label whose name is not empty. */
  ghost predicate Follows(rest: string, names: set<char>) {
    rest == "" || exists k: string, more: string :: k != "" && AllIn(k, names) && rest == k + "=" + more
  }

  /** A value cannot reach into what follows it. */
  lemma {:induction false} NotShorter(v: string, rest: string, v': string, rest': string,
                                      names: set<char>, values: set<char>)
    requires '=' !in names && ';' !in names && names !! values
    requires AllIn(v', values) && Follows(rest, names)
    requires v + ";" + rest == v' + ";" + rest'
    ensures |v| >= |v'|
  {
    var t := v + ";" + rest;
    assert t[|v'|] == ';' by {
      assert t == v' + ";" + rest';
    }
    assert forall i :: 0 <= i < |v'| ==> t[i] == v'[i];
    if rest != "" {
      var k: string, more: string :| k != "" && AllIn(k, names) && rest == k + "=" + more;
      var at := |v| + 1;
      assert forall i :: 0 <= i < |k| ==> t[at + i] == k[i];
      assert t[at + |k|] == '=' && k[0] in names;
      assert !(at <= |v'| <= at + |k|);
    }
  }

  lemma {:induction false} RestFollows(labels: Labels, x: seq<string>, names: set<char>, values: set<char>)
    requires Over(labels, names, values) && Sorted(LessString, x) && x != [] && forall k :: k in x ==> k in labels
    ensures Follows(Render(labels, x[1..]), names)
  {
    if |x| > 1 {
      assert LessString(x[0], x[1]);
      var rest, k := x[1..], x[1];
      assert rest[0] == k && k in x;
      var more := labels[k] + ";" + Render(labels, rest[1..]);
      assert Render(labels, rest) == k + "=" + more;
    }
  }

  lemma {:induction false} RenderHead(labels: Labels, x: seq<string>)
    requires x != [] && forall k :: k in x ==> k in labels
    ensures Render(labels, x) == x[0] + "=" + (labels[x[0]] + ";" + Render(labels, x[1..]))
  {
  }

  /** The first labels agree, and so does what follows them. */
  lemma {:induction false} SameHead(a: Labels, x: seq<string>, b: Labels, y: seq<string>,
                                    names: set<char>, values: set<char>)
    requires '=' !in names && ';' !in names && names !! values
    requires Over(a, names, values) && Over(b, names, values) && x != [] && y != []
    requires Sorted(LessString, x) && Sorted(LessString, y)
    requires (forall k :: k in x ==> k in a) && (forall k :: k in y ==> k in b)
    requires Render(a, x) == Render(b, y)
    ensures x[0] == y[0] && a[x[0]] == b[y[0]] && Render(a, x[1..]) == Render(b, y[1..])
  {
    var k, v, r := x[0], a[x[0]], Render(a, x[1..]);
    var k', v', r' := y[0], b[y[0]], Render(b, y[1..]);
    assert k in x && k' in y;
    RenderHead(a, x);
    RenderHead(b, y);
    FirstCut(k, v + ";" + r, k', v' + ";" + r', '=');
    SameValue(a, x, b, y, names, values);
  }

  lemma {:induction false} RenderInjectiveOver(a: Labels, x: seq<string>, b: Labels, y: seq<string>,
                                               names: set<char>, values: set<char>)
    requires '=' !in names && ';' !in names && names !! values
    requires Over(a, names, values) && Over(b, names, values)
    requires Sorted(LessString, x) && Sorted(LessString, y)
    requires (forall k :: k in x ==> k in a) && (forall k :: k in y ==> k in b)
    requires Render(a, x) == Render(b, y)
    ensures x == y && forall k :: k in x ==> a[k] == b[k]
    decreases |x|
  {
    if x != [] && y != [] {
      SameHead(a, x, b, y, names, values);
      TailSorted(x);
      TailSorted(y);
      RenderInjectiveOver(a, x[1..], b, y[1..], names, values);
      assert x == [x[0]] + x[1..] && y == [y[0]] + y[1..];
    }
  }

  lemma TailSorted(x: seq<string>)
    requires x != [] && Sorted(LessString, x)
    ensures Sorted(LessString, x[1..])
  {
  }

  lemma {:induction false} SameValue(a: Labels, x: seq<string>, b: Labels, y: seq<string>,
                                     names: set<char>, values: set<char>)
    requires '=' !in names && ';' !in names && names !! values
    requires Over(a, names, values) && Over(b, names, values) && x != [] && y != []
    requires Sorted(LessString, x) && Sorted(LessString, y)
    requires (forall k :: k in x ==> k in a) && (forall k :: k in y ==> k in b)
    requires a[x[0]] + ";" + Render(a, x[1..]) == b[y[0]] + ";" + Render(b, y[1..])
    ensures a[x[0]] == b[y[0]] && Render(a, x[1..]) == Render(b, y[1..])
  {
    var v, r, v', r' := a[x[0]], Render(a, x[1..]), b[y[0]], Render(b, y[1..]);
    RestFollows(a, x, names, values);
    RestFollows(b, y, names, values);
    NotShorter(v, r, v', r', names, values);
    NotShorter(v', r', v, r, names, values);
    var t := v + ";" + r;
    assert t[..|v|] == v && t[|v| + 1..] == r;
    assert (v' + ";" + r')[..|v'|] == v' && (v' + ";" + r')[|v'| + 1..] == r';
  }

  /** The alphabets with which a key can be read back: from the front, from
      the back, or because names and values share nothing. */
  predicate Readable(names: set<char>, values: set<char>) {
    || ('=' !in names && ';' !in values)
    || (';' !in names && '=' !in values)
    || ('=' !in names && ';' !in names && names !! values)
  }

  lemma {:induction false} KeyInjectiveOver(a: Labels, b: Labels, key: string, names: set<char>, values: set<char>)
    requires Readable(names, values)
    requires Over(a, names, values) && Over(b, names, values) && IsKey(a, key) && IsKey(b, key)
    ensures a == b
  {
    if '=' !in names && ';' !in values {
      assert Plain(a) && Plain(b);
      KeyInjective(a, b, key);
    } else if ';' !in names && '=' !in values {
      assert Mirrored(a) && Mirrored(b);
      KeyInjectiveBack(a, b, key);
    } else {
      var x :| Names(a, x) && key == Render(a, x);
      var y :| Names(b, y) && key == Render(b, y);
      RenderInjectiveOver(a, x, b, y, names, values);
      assert a.Keys == b.Keys;
    }
  }

  /** Two different label sets over the alphabets with one key. */
  ghost predicate Collide(a: Labels, b: Labels, key: string, names: set<char>, values: set<char>) {
    a != b && Over(a, names, values) && Over(b, names, values) && IsKey(a, key) && IsKey(b, key)
  }

  /** The key of one label. */
  lemma {:induction false} KeyOfOne(k: string, v: string)
    ensures IsKey(map[k := v], k + "=" + v + ";")
  {
    var a: Labels := map[k := v];
    assert [k][1..] == [] && Render(a, []) == "" && Render(a, [k]) == k + "=" + v + ";";
    assert Names(a, [k]);
  }

  /** The key of two labels. */
  lemma {:induction false} KeyOfTwo(k: string, v: string, k': string, v': string)
    requires LessString(k, k') && k != k'
    ensures IsKey(map[k := v, k' := v'], k + "=" + v + ";" + (k' + "=" + v' + ";"))
  {
    var a: Labels := map[k := v, k' := v'];
    assert a[k] == v && a[k'] == v';
    assert [k'][1..] == [] && [k, k'][1..] == [k'] && Render(a, []) == "";
    assert Render(a, [k']) == k' + "=" + v' + ";";
    assert Render(a, [k, k']) == k + "=" + v + ";" + (k' + "=" + v' + ";");
    assert Names(a, [k, k']);
  }

  /** With a character that both names and values may use, a value can imitate
      a label: {c: ";cc="} and {c: "", cc: ""} have one key. */
  lemma {:induction false} KeysCollide(c: char, names: set<char>, values: set<char>)
    requires c != '=' && c != ';' && c in names && {c, '=', ';'} <= values
    ensures Collide(map[[c] := [';', c, c, '=']], map[[c] := "", [c, c] := ""], [c, '=', ';', c, c, '=', ';'],
                    names, values)
  {
    assert [c, c] != [c] by {
      assert |[c, c]| != |[c]|;
    }
    assert [c][1..] == "" && [c, c][1..] == [c];
    KeyOfOne([c], [';', c, c, '=']);
    KeyOfTwo([c], "", [c, c], "");
    assert [c] + "=" + [';', c, c, '='] + ";" == [c, '=', ';', c, c, '=', ';'];
    assert [c] + "=" + "" + ";" + ([c, c] + "=" + "" + ";") == [c, '=', ';', c, c, '=', ';'];
    assert [c, c] in map[[c] := "", [c, c] := ""] && [c, c] !in map[[c] := [';', c, c, '=']];
  }

  /** A name with both separators can imitate two labels. */
  lemma {:induction false} NamesCollide(names: set<char>, values: set<char>)
    requires '=' in names && ';' in names
    ensures Collide(map["=;=" := ""], map["" := "", "=" := ""], "=;==;", names, values)
  {
    KeyOfOne("=;=", "");
    KeyOfTwo("", "", "=", "");
    assert "=;=" + "=" + "" + ";" == "=;==;" && "" + "=" + "" + ";" + ("=" + "=" + "" + ";") == "=;==;";
    assert "" in map["" := "", "=" := ""] && "" !in map["=;=" := ""];
  }

  /** With '=' in both, the '=' between name and value cannot be found. */
  lemma {:induction false} EqualsCollide(names: set<char>, values: set<char>)
    requires '=' in names && '=' in values
    ensures Collide(map["=" := "="], map["==" := ""], "===;", names, values)
  {
    KeyOfOne("=", "=");
    KeyOfOne("==", "");
    assert "=" + "=" + "=" + ";" == "===;" && "==" + "=" + "" + ";" == "===;";
    assert "=" in map["=" := "="] && "=" !in map["==" := ""];
  }

  /** With ';' in both, the ';' between two labels cannot be found. */
  lemma {:induction false} SemicolonsCollide(names: set<char>, values: set<char>)
    requires ';' in names && ';' in values
    ensures Collide(map[";" := "", ";;;" := ""], map[";" := ";", ";;" := ""], ";=;;;;=;", names, values)
  {
    assert ";"[1..] == "" && ";;"[1..] == ";" && ";;;"[1..] == ";;";
    KeyOfTwo(";", "", ";;;", "");
    KeyOfTwo(";", ";", ";;", "");
    assert ";" + "=" + "" + ";" + (";;;" + "=" + "" + ";") == ";=;;;;=;";
    assert ";" + "=" + ";" + ";" + (";;" + "=" + "" + ";") == ";=;;;;=;";
    assert ";;" in map[";" := ";", ";;" := ""] && ";;" !in map[";" := "", ";;;" := ""];
  }

  lemma {:induction false} SomeCollide(names: set<char>, values: set<char>) returns (a: Labels, b: Labels, key: string)
    requires !Readable(names, values)
    ensures Collide(a, b, key, names, values)
  {
    if '=' in names && ';' in names {
      a, b, key := map["=;=" := ""], map["" := "", "=" := ""], "=;==;";
      NamesCollide(names, values);
    } else if '=' in names {
      a, b, key := map["=" := "="], map["==" := ""], "===;";
      EqualsCollide(names, values);
    } else if ';' in names {
      a, b, key := map[";" := "", ";;;" := ""], map[";" := ";", ";;" := ""], ";=;;;;=;";
      SemicolonsCollide(names, values);
    } else {
      var c :| c in names && c in values;
      a, b, key := map[[c] := [';', c, c, '=']], map[[c] := "", [c, c] := ""], [c, '=', ';', c, c, '=', ';'];
      KeysCollide(c, names, values);
    }
  }

  /** Keys tell all label sets over two alphabets apart exactly when names
      lack '=' and values ';', or names ';' and values '=', or names lack both
      and share no character with values. */
  lemma {:induction false} TellApartIff(names: set<char>, values: set<char>)
    ensures TellApart(names, values) <==>
              || ('=' !in names && ';' !in values)
              || (';' !in names && '=' !in values)
              || ('=' !in names && ';' !in names && names !! values)
  {
    if Readable(names, values) {
      forall a, b, key | Over(a, names, values) && Over(b, names, values) && IsKey(a, key) && IsKey(b, key)
        ensures a == b
      {
        KeyInjectiveOver(a, b, key, names, values);
      }
    } else {
      var a, b, key := SomeCollide(names, values);
    }
  }
}
