/** Which installed packages have an update (internal/collector/pkgupdates,
    apt source), from the parsed dpkg status and the parsed list files. */
module AptUpdates {
  import opened Common
  import opened DebVersion
  import opened DebOrder

  /** Any total preorder of versions will do. */
  type Order = (seq<byte>, seq<byte>) -> int

  ghost predicate Preorder(cmp: Order) {
    && (forall a, b :: cmp(a, b) > 0 <==> cmp(b, a) < 0)
    && (forall a, b, c :: cmp(a, b) <= 0 && cmp(b, c) <= 0 ==> cmp(a, c) <= 0)
  }

  lemma {:induction false} VersionPreorder()
    ensures Preorder(VersionCmp)
  {
    forall a, b ensures VersionCmp(a, b) > 0 <==> VersionCmp(b, a) < 0 {
      VersionAntisymmetric(a, b);
    }
    forall a, b, c | VersionCmp(a, b) <= 0 && VersionCmp(b, c) <= 0 ensures VersionCmp(a, c) <= 0 {
      VersionTransitive(a, b, c);
    }
  }

  type Packages = map<string, seq<byte>>

  datatype Update = Update(name: string, installed: seq<byte>, candidate: seq<byte>)

  /** `v` is offered for `name` by some list file, and none offers more. */
  ghost predicate IsHighest(cmp: Order, files: seq<Packages>, name: string, v: seq<byte>) {
    && (exists i :: 0 <= i < |files| && name in files[i] && files[i][name] == v)
    && (forall i :: 0 <= i < |files| && name in files[i] ==> cmp(files[i][name], v) <= 0)
  }

  ghost predicate Offered(files: seq<Packages>, name: string) {
    exists i :: 0 <= i < |files| && name in files[i]
  }

  ghost predicate AllHighest(cmp: Order, files: seq<Packages>, candidates: Packages) {
    forall name :: (name in candidates <==> Offered(files, name))
                   && (name in candidates ==> IsHighest(cmp, files, name, candidates[name]))
  }

  /** The candidates after merging the entries in `done` of one more file. */
  ghost predicate Merged(cmp: Order, before: Packages, pkgs: Packages, done: set<string>, candidates: Packages) {
    && candidates.Keys == before.Keys + done
    && (forall name :: name in before && name !in done ==> candidates[name] == before[name])
    && (forall name :: name in done ==>
          name in pkgs && candidates[name]
          == if name !in before || cmp(pkgs[name], before[name]) > 0 then pkgs[name] else before[name])
  }

  /** Merges one list file, visiting its entries in any order. */
  method MergeFile(before: Packages, pkgs: Packages) returns (candidates: Packages)
    ensures Merged(VersionCmp, before, pkgs, pkgs.Keys, candidates)
  {
    candidates := before;
    var todo := pkgs.Keys;
    while todo != {}
      invariant todo <= pkgs.Keys
      invariant Merged(VersionCmp, before, pkgs, pkgs.Keys - todo, candidates)
      decreases todo
    {
      var name :| name in todo;
      ghost var done := pkgs.Keys - todo;
      assert pkgs.Keys - (todo - {name}) == done + {name};
      if name !in candidates {
        candidates := candidates[name := pkgs[name]];
      } else {
        var c := Compare(pkgs[name], candidates[name]);
        if c > 0 {
          candidates := candidates[name := pkgs[name]];
        }
      }
      todo := todo - {name};
    }
    assert pkgs.Keys - {} == pkgs.Keys;
  }

  lemma {:induction false} MergeKeepsHighest(cmp: Order, files: seq<Packages>, before: Packages, pkgs: Packages,
                                             candidates: Packages)
    requires Preorder(cmp) && AllHighest(cmp, files, before) && Merged(cmp, before, pkgs, pkgs.Keys, candidates)
    ensures AllHighest(cmp, files + [pkgs], candidates)
  {
    var files' := files + [pkgs];
    forall name ensures (name in candidates <==> Offered(files', name))
                        && (name in candidates ==> IsHighest(cmp, files', name, candidates[name]))
    {
      OfferedByMore(files, pkgs, name);
      if name in candidates {
        HighestOfMore(cmp, files, before, pkgs, candidates, name);
      }
    }
  }

  lemma {:induction false} OfferedByMore(files: seq<Packages>, pkgs: Packages, name: string)
    ensures Offered(files + [pkgs], name) <==> Offered(files, name) || name in pkgs
  {
    var files' := files + [pkgs];
    assert files'[|files|] == pkgs;
    if Offered(files, name) {
      var i :| 0 <= i < |files| && name in files[i];
      assert files'[i] == files[i];
    }
  }

  /** The running maximum stays the maximum; this is where totality and
      transitivity of the version order are needed. */
  lemma {:induction false} HighestOfMore(cmp: Order, files: seq<Packages>, before: Packages, pkgs: Packages,
                                         candidates: Packages, name: string)
    requires Preorder(cmp) && AllHighest(cmp, files, before) && Merged(cmp, before, pkgs, pkgs.Keys, candidates)
             && name in candidates
    ensures IsHighest(cmp, files + [pkgs], name, candidates[name])
  {
    assert name in before ==> IsHighest(cmp, files, name, before[name]);
    if name !in before {
      FirstOffer(cmp, files, pkgs, name);
    } else if name in pkgs && cmp(pkgs[name], before[name]) > 0 {
      HigherOffer(cmp, files, pkgs, name, before[name]);
    } else {
      NoHigherOffer(cmp, files, pkgs, name, before[name]);
    }
  }

  lemma {:induction false} FirstOffer(cmp: Order, files: seq<Packages>, pkgs: Packages, name: string)
    requires Preorder(cmp) && !Offered(files, name) && name in pkgs
    ensures IsHighest(cmp, files + [pkgs], name, pkgs[name])
  {
    assert (files + [pkgs])[|files|] == pkgs;
  }

  lemma {:induction false} NoHigherOffer(cmp: Order, files: seq<Packages>, pkgs: Packages, name: string, v: seq<byte>)
    requires IsHighest(cmp, files, name, v) && (name in pkgs ==> cmp(pkgs[name], v) <= 0)
    ensures IsHighest(cmp, files + [pkgs], name, v)
  {
    var i :| 0 <= i < |files| && name in files[i] && files[i][name] == v;
    assert (files + [pkgs])[i] == files[i];
  }

  lemma {:induction false} HigherOffer(cmp: Order, files: seq<Packages>, pkgs: Packages, name: string, was: seq<byte>)
    requires Preorder(cmp) && IsHighest(cmp, files, name, was) && name in pkgs && cmp(pkgs[name], was) > 0
    ensures IsHighest(cmp, files + [pkgs], name, pkgs[name])
  {
    var files' := files + [pkgs];
    assert files'[|files|] == pkgs;
    forall i | 0 <= i < |files| && name in files[i] ensures cmp(files[i][name], pkgs[name]) <= 0 {
      StillBelow(cmp, files[i][name], was, pkgs[name]);
    }
  }

  lemma {:induction false} StillBelow(cmp: Order, x: seq<byte>, was: seq<byte>, now: seq<byte>)
    requires Preorder(cmp) && cmp(x, was) <= 0 && cmp(now, was) > 0
    ensures cmp(x, now) <= 0
  {
    assert cmp(was, now) <= 0;
  }

  /** For every package any list file offers, its highest offered version. */
  method CandidateVersions(files: seq<Packages>) returns (candidates: Packages)
    ensures AllHighest(VersionCmp, files, candidates)
  {
    VersionPreorder();
    candidates := map[];
    for i := 0 to |files|
      invariant AllHighest(VersionCmp, files[..i], candidates)
    {
      var before := candidates;
      candidates := MergeFile(before, files[i]);
      MergeKeepsHighest(VersionCmp, files[..i], before, files[i], candidates);
      assert files[..i + 1] == files[..i] + [files[i]];
    }
    assert files[..|files|] == files;
  }

  ghost predicate Reported(items: seq<Update>, name: string) {
    exists i :: 0 <= i < |items| && items[i].name == name
  }

  ghost predicate HasUpdate(cmp: Order, installed: Packages, files: seq<Packages>, name: string) {
    name in installed && exists i :: 0 <= i < |files| && name in files[i] && cmp(files[i][name], installed[name]) > 0
  }

  /** `items` lists, once each, the packages of `done` that are in `due`, and
      no package outside `done`. */
  ghost predicate Lists(items: seq<Update>, done: set<string>, due: set<string>) {
    && (forall i :: 0 <= i < |items| ==> items[i].name in done)
    && (forall i, j :: 0 <= i < j < |items| ==> items[i].name != items[j].name)
    && (forall name :: name in done && name in due ==> Reported(items, name))
  }

  /** A package that has an update, with a highest offered version. */
  ghost predicate RightUpdate(cmp: Order, installed: Packages, files: seq<Packages>, u: Update) {
    && u.name in installed && u.installed == installed[u.name]
    && IsHighest(cmp, files, u.name, u.candidate)
    && cmp(u.candidate, u.installed) > 0
  }

  lemma {:induction false} ListsMore(items: seq<Update>, done: set<string>, due: set<string>, u: Update)
    requires Lists(items, done, due) && u.name !in done
    ensures Lists(items + [u], done + {u.name}, due)
  {
    var items' := items + [u];
    forall name | name in done + {u.name} && name in due ensures Reported(items', name) {
      if name == u.name {
        assert items'[|items|].name == name;
      } else {
        var i :| 0 <= i < |items| && items[i].name == name;
        assert items'[i].name == name;
      }
    }
  }

  /** The installed packages that have an update. */
  ghost function Due(cmp: Order, installed: Packages, files: seq<Packages>): set<string> {
    set name | name in installed && HasUpdate(cmp, installed, files, name)
  }

  /** The installed packages whose candidate is strictly higher. */
  ghost function Outdated(cmp: Order, installed: Packages, candidates: Packages): set<string> {
    set name | name in installed && name in candidates && cmp(candidates[name], installed[name]) > 0
  }

  /** Compares every installed package with its candidate. */
  method ListOutdated(installed: Packages, candidates: Packages) returns (items: seq<Update>)
    ensures Lists(items, installed.Keys, Outdated(VersionCmp, installed, candidates))
    ensures forall i :: 0 <= i < |items| ==>
              && items[i].name in Outdated(VersionCmp, installed, candidates)
              && items[i] == Update(items[i].name, installed[items[i].name], candidates[items[i].name])
  {
    ghost var due := Outdated(VersionCmp, installed, candidates);
    items := [];
    var todo := installed.Keys;
    while todo != {}
      invariant todo <= installed.Keys
      invariant Lists(items, installed.Keys - todo, due)
      invariant forall i :: 0 <= i < |items| ==>
                  && items[i].name in due
                  && items[i] == Update(items[i].name, installed[items[i].name], candidates[items[i].name])
      decreases todo
    {
      var name :| name in todo;
      ghost var done := installed.Keys - todo;
      assert installed.Keys - (todo - {name}) == done + {name};
      todo := todo - {name};
      var newer := IsOutdated(installed, candidates, name);
      if newer {
        var u := Update(name, installed[name], candidates[name]);
        ListsMore(items, done, due, u);
        items := items + [u];
      }
    }
    assert installed.Keys - {} == installed.Keys;
  }

  method IsOutdated(installed: Packages, candidates: Packages, name: string) returns (newer: bool)
    requires name in installed
    ensures newer <==> name in Outdated(VersionCmp, installed, candidates)
    ensures newer ==> name in candidates
  {
    if name !in candidates {
      return false;
    }
    var c := Compare(candidates[name], installed[name]);
    return c > 0;
  }

  /** The reported updates: exactly the installed packages for which some
      list file offers a strictly higher version, each once and with a
      highest offered version. */
  method AptItems(installed: Packages, files: seq<Packages>) returns (items: seq<Update>)
    ensures Lists(items, installed.Keys, Due(VersionCmp, installed, files))
    ensures forall i :: 0 <= i < |items| ==>
              items[i].name in Due(VersionCmp, installed, files) && RightUpdate(VersionCmp, installed, files, items[i])
  {
    var candidates := CandidateVersions(files);
    VersionPreorder();
    OutdatedIsDue(VersionCmp, installed, files, candidates);
    if |candidates| == 0 {
      assert candidates.Keys == {};
      return [];
    }
    items := ListOutdated(installed, candidates);
    forall i | 0 <= i < |items| ensures RightUpdate(VersionCmp, installed, files, items[i]) {
      assert IsHighest(VersionCmp, files, items[i].name, candidates[items[i].name]);
    }
  }

  lemma {:induction false} OutdatedIsDue(cmp: Order, installed: Packages, files: seq<Packages>, candidates: Packages)
    requires Preorder(cmp) && AllHighest(cmp, files, candidates)
    ensures Outdated(cmp, installed, candidates) == Due(cmp, installed, files)
  {
    forall name | name in installed
      ensures name in Outdated(cmp, installed, candidates) <==> name in Due(cmp, installed, files)
    {
      HighestDecides(cmp, installed, files, candidates, name);
    }
  }

  lemma {:induction false} HighestDecides(cmp: Order, installed: Packages, files: seq<Packages>, candidates: Packages,
                                          name: string)
    requires Preorder(cmp) && AllHighest(cmp, files, candidates) && name in installed
    ensures HasUpdate(cmp, installed, files, name) <==> name in candidates && cmp(candidates[name], installed[name]) > 0
  {
    if HasUpdate(cmp, installed, files, name) {
      var i :| 0 <= i < |files| && name in files[i] && cmp(files[i][name], installed[name]) > 0;
      assert Offered(files, name);
      assert IsHighest(cmp, files, name, candidates[name]);
      HigherStill(cmp, files[i][name], candidates[name], installed[name]);
    }
    if name in candidates {
      assert IsHighest(cmp, files, name, candidates[name]);
    }
  }

  lemma {:induction false} HigherStill(cmp: Order, v: seq<byte>, top: seq<byte>, installed: seq<byte>)
    requires Preorder(cmp) && cmp(v, top) <= 0 && cmp(v, installed) > 0
    ensures cmp(top, installed) > 0
  {
  }

  /** Reading the list files in another order offers the same versions. */
  ghost predicate SameFiles(files: seq<Packages>, other: seq<Packages>) {
    multiset(files) == multiset(other)
  }

  lemma {:induction false} SameMembers(files: seq<Packages>, other: seq<Packages>, i: nat) returns (j: nat)
    requires SameFiles(files, other) && i < |files|
    ensures j < |other| && other[j] == files[i]
  {
    assert files[i] in multiset(files);
    assert files[i] in multiset(other);
    j :| 0 <= j < |other| && other[j] == files[i];
  }

  lemma {:induction false} StillDue(cmp: Order, installed: Packages, files: seq<Packages>, other: seq<Packages>,
                                    name: string)
    requires SameFiles(files, other) && HasUpdate(cmp, installed, files, name)
    ensures HasUpdate(cmp, installed, other, name)
  {
    var i :| 0 <= i < |files| && name in files[i] && cmp(files[i][name], installed[name]) > 0;
    var j := SameMembers(files, other, i);
  }

  lemma {:induction false} NotHigher(cmp: Order, files: seq<Packages>, other: seq<Packages>, name: string, v: seq<byte>,
                                     w: seq<byte>)
    requires SameFiles(files, other) && IsHighest(cmp, files, name, v) && IsHighest(cmp, other, name, w)
    ensures cmp(v, w) <= 0
  {
    var i :| 0 <= i < |files| && name in files[i] && files[i][name] == v;
    var j := SameMembers(files, other, i);
  }

  /** The reading order matters neither to which packages are reported nor,
      up to versions that compare equal, to the candidate reported. */
  lemma {:induction false} OrderIrrelevant(cmp: Order, installed: Packages, files: seq<Packages>, other: seq<Packages>,
                                           name: string)
    requires Preorder(cmp) && SameFiles(files, other)
    ensures HasUpdate(cmp, installed, files, name) <==> HasUpdate(cmp, installed, other, name)
    ensures forall v, w :: IsHighest(cmp, files, name, v) && IsHighest(cmp, other, name, w) ==> cmp(v, w) == 0
  {
    if HasUpdate(cmp, installed, files, name) {
      StillDue(cmp, installed, files, other, name);
    }
    if HasUpdate(cmp, installed, other, name) {
      StillDue(cmp, installed, other, files, name);
    }
    forall v, w | IsHighest(cmp, files, name, v) && IsHighest(cmp, other, name, w) ensures cmp(v, w) == 0 {
      NotHigher(cmp, files, other, name, v, w);
      NotHigher(cmp, other, files, name, w, v);
    }
  }
}
