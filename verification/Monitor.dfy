/** The summary the first monitor gave its callers. */
module Legacy {
  import opened Collections
  import opened Wrappers
  import opened PathOrder
  import opened Snapshots
  import opened Changes

  datatype Summary = Summary(matched: seq<string>, missing: seq<string>, modified: seq<string>,
                             extra: seq<string>, ok: bool)

  function Removal(ch: Change): Option<string> {
    if ch.kind.Deleted? then Some(ch.path)
    else if ch.kind.Renamed? then ch.previousPath
    else None
  }

  function Modification(ch: Change): Option<string> {
    if ch.kind.Modified? then Some(ch.path) else None
  }

  function Arrival(ch: Change): Option<string> {
    if ch.kind.Created? || (ch.kind.Renamed? && ch.previousPath.Some?) then Some(ch.path) else None
  }

  /** The paths that `pick` takes from the changes, in order. */
  function Picked(s: seq<Change>, pick: Change -> Option<string>): seq<string> {
    if s == [] then []
    else
      var rest := Picked(s[..|s|-1], pick);
      if pick(s[|s|-1]).Some? then rest + [pick(s[|s|-1]).value] else rest
  }

  ghost predicate StrictlyAscending(s: seq<string>) {
    forall i, j :: 0 <= i < j < |s| ==> Less(s[i], s[j])
  }

  function InsertPath(p: string, s: seq<string>): seq<string> {
    if s == [] || Less(p, s[0]) then [p] + s else [s[0]] + InsertPath(p, s[1..])
  }

  /** `sorted(paths)`. */
  function SortPaths(s: seq<string>): seq<string> {
    if s == [] then [] else InsertPath(s[0], SortPaths(s[1..]))
  }

  lemma {:induction false} InsertAscends(p: string, s: seq<string>)
    requires StrictlyAscending(s) && p !in s
    ensures StrictlyAscending(InsertPath(p, s)) && forall x :: x in InsertPath(p, s) <==> x == p || x in s
  {
    if s == [] {
    } else if Less(p, s[0]) {
      forall i | 0 <= i < |s| ensures Less(p, s[i]) {
        if i > 0 { LessTransitive(p, s[0], s[i]); }
      }
    } else {
      assert s == [s[0]] + s[1..];
      InsertAscends(p, s[1..]);
      LessTotal(s[0], p);
      var rest := InsertPath(p, s[1..]);
      forall i | 0 <= i < |rest| ensures Less(s[0], rest[i]) {
        assert rest[i] in rest;
      }
    }
  }

  lemma {:induction false} SortAscends(s: seq<string>)
    requires Distinct(s)
    ensures StrictlyAscending(SortPaths(s)) && forall x :: x in SortPaths(s) <==> x in s
  {
    if s != [] {
      assert s == [s[0]] + s[1..];
      SortAscends(s[1..]);
      InsertAscends(s[0], SortPaths(s[1..]));
    }
  }

  function Unpicked(examined: seq<string>, unmatched: set<string>): seq<string> {
    if examined == [] then []
    else
      var rest := Unpicked(examined[..|examined|-1], unmatched);
      if examined[|examined|-1] in unmatched then rest else rest + [examined[|examined|-1]]
  }

  /** What `summary_of` returns. */
  function SummaryFor(changes: seq<Change>, examined: seq<string>): Summary {
    var missing, modified, extra := Picked(changes, Removal), Picked(changes, Modification), Picked(changes, Arrival);
    Summary(Unpicked(examined, (set p | p in missing) + (set p | p in modified)),
            SortPaths(missing), SortPaths(modified), SortPaths(extra), missing == [] && modified == [])
  }

  /** `summary_of`. */
  method SummaryOf(changes: seq<Change>, examined: seq<string>) returns (r: Summary)
    ensures r == SummaryFor(changes, examined)
  {
    var missing: seq<string>, modified: seq<string>, extra: seq<string> := [], [], [];
    for i := 0 to |changes|
      invariant missing == Picked(changes[..i], Removal)
      invariant modified == Picked(changes[..i], Modification)
      invariant extra == Picked(changes[..i], Arrival)
    {
      var change := changes[i];
      assert changes[..i+1][..i] == changes[..i];
      if change.kind.Deleted? {
        missing := missing + [change.path];
      } else if change.kind.Modified? {
        modified := modified + [change.path];
      } else if change.kind.Created? {
        extra := extra + [change.path];
      } else if change.kind.Renamed? && change.previousPath.Some? {
        missing := missing + [change.previousPath.value];
        extra := extra + [change.path];
      }
    }
    assert changes[..|changes|] == changes;
    var unmatched := (set p | p in missing) + (set p | p in modified);
    var matched: seq<string> := [];
    for i := 0 to |examined|
      invariant matched == Unpicked(examined[..i], unmatched)
    {
      assert examined[..i+1][..i] == examined[..i];
      if examined[i] !in unmatched {
        matched := matched + [examined[i]];
      }
    }
    assert examined[..|examined|] == examined;
    return Summary(matched, SortPaths(missing), SortPaths(modified), SortPaths(extra), missing == [] && modified == []);
  }

  // ---------------------------------------------------------------- the summary is a set comparison

  lemma {:induction false} PickedHolds(s: seq<Change>, pick: Change -> Option<string>)
    ensures forall p :: p in Picked(s, pick) <==> exists ch :: ch in s && pick(ch) == Some(p)
  {
    if s != [] {
      var init, last := s[..|s|-1], s[|s|-1];
      PickedHolds(init, pick);
      assert s == init + [last];
    }
  }

  lemma {:induction false} PickedOnce(s: seq<Change>, pick: Change -> Option<string>)
    requires forall i, j :: 0 <= i < j < |s| && pick(s[i]).Some? ==> pick(s[i]) != pick(s[j])
    ensures Distinct(Picked(s, pick))
  {
    if s != [] {
      var init, last := s[..|s|-1], s[|s|-1];
      PickedOnce(init, pick);
      PickedHolds(init, pick);
      if pick(last).Some? {
        forall p | p in Picked(init, pick) ensures p != pick(last).value {
          var ch :| ch in init && pick(ch) == Some(p);
          var i :| 0 <= i < |init| && init[i] == ch;
          assert pick(s[i]) != pick(s[|s|-1]);
        }
      }
    }
  }

  /** The picks of a change list: vanished paths, common paths whose content differs, new paths. */
  lemma PicksAreSets(b: Tree, c: Tree, s: seq<Change>, p: string)
    requires AllChanges(b, c, s) && IsTree(b) && IsTree(c)
    ensures p in Picked(s, Removal) <==> p in b && p !in c
    ensures p in Picked(s, Modification) <==> p in b && p in c && ContentDiffers(b[p], c[p])
    ensures p in Picked(s, Arrival) <==> p in c && p !in b
  {
    hide InOrder, ContentDiffers, Picked;
    PickedHolds(s, Removal);
    PickedHolds(s, Modification);
    PickedHolds(s, Arrival);
    if p in b && p !in c {
      VanishedOnce(b, c, s, p);
      var i :| 0 <= i < |s| && Removes(s[i], p);
      assert s[i] in s && Removal(s[i]) == Some(p);
    }
    if p in c && p !in b {
      ArrivedOnce(b, c, s, p);
      var i :| 0 <= i < |s| && Sets(s[i], p);
      assert s[i] in s && IsChange(b, c, s[i]);
      assert Arrival(s[i]) == Some(p);
    }
    if p in b && p in c && ContentDiffers(b[p], c[p]) {
      var ch := Between(Modified, b[p], c[p], []);
      assert IsChange(b, c, ch);
      assert ch in s && Modification(ch) == Some(p);
    }
  }

  lemma PicksAreUnique(b: Tree, c: Tree, s: seq<Change>)
    requires AllChanges(b, c, s) && IsTree(b) && IsTree(c)
    ensures Distinct(Picked(s, Removal)) && Distinct(Picked(s, Modification)) && Distinct(Picked(s, Arrival))
  {
    hide InOrder, Before, Picked;
    forall i, j | 0 <= i < j < |s|
      ensures Removal(s[i]).Some? ==> Removal(s[i]) != Removal(s[j])
      ensures Modification(s[i]).Some? ==> Modification(s[i]) != Modification(s[j])
      ensures Arrival(s[i]).Some? ==> Arrival(s[i]) != Arrival(s[j])
    {
      PicksDiffer(b, c, s, i, j);
    }
    PickedOnce(s, Removal);
    PickedOnce(s, Modification);
    PickedOnce(s, Arrival);
  }

  lemma PicksDiffer(b: Tree, c: Tree, s: seq<Change>, i: nat, j: nat)
    requires AllChanges(b, c, s) && IsTree(b) && IsTree(c) && i < j < |s|
    ensures Removal(s[i]).Some? ==> Removal(s[i]) != Removal(s[j])
    ensures Modification(s[i]).Some? ==> Modification(s[i]) != Modification(s[j])
    ensures Arrival(s[i]).Some? ==> Arrival(s[i]) != Arrival(s[j])
  {
    var x, y := s[i], s[j];
    assert x in s && y in s && IsChange(b, c, x) && IsChange(b, c, y);
    assert x != y by {
      hide IsChange, Before;
      if x == y { OnePlace(s, i, j); }
    }
    hide InOrder;
    if Removal(x).Some? && Removal(x) == Removal(y) { RemovesOnce(b, c, Removal(x).value, x, y); }
    if Arrival(x).Some? && Arrival(x) == Arrival(y) { SetsOnce(b, c, x.path, x, y); }
  }

  lemma {:induction false} UnpickedHolds(examined: seq<string>, unmatched: set<string>)
    ensures forall p :: p in Unpicked(examined, unmatched) <==> p in examined && p !in unmatched
  {
    if examined != [] {
      UnpickedHolds(examined[..|examined|-1], unmatched);
      assert examined == examined[..|examined|-1] + [examined[|examined|-1]];
    }
  }

  /** The summary of a detection is the plain comparison of the two path sets, each path once and in
      order; pairing files as renames never shows. */
  lemma SummaryIsComparison(b: Tree, c: Tree, s: seq<Change>, examined: seq<string>)
    requires AllChanges(b, c, s) && IsTree(b) && IsTree(c) && forall p :: p in examined <==> p in b
    ensures var r := SummaryFor(s, examined);
      && StrictlyAscending(r.missing) && StrictlyAscending(r.modified) && StrictlyAscending(r.extra)
      && (forall p :: p in r.missing <==> p in b && p !in c)
      && (forall p :: p in r.extra <==> p in c && p !in b)
      && (forall p :: p in r.modified <==> p in b && p in c && ContentDiffers(b[p], c[p]))
      && (forall p :: p in r.matched <==> p in b && p in c && !ContentDiffers(b[p], c[p]))
      && (r.ok <==> forall p :: p in b ==> p in c && !ContentDiffers(b[p], c[p]))
  {
    hide AllChanges, ContentDiffers, Picked;
    PicksAreUnique(b, c, s);
    var missing, modified, extra := Picked(s, Removal), Picked(s, Modification), Picked(s, Arrival);
    forall p
      ensures p in missing <==> p in b && p !in c
      ensures p in modified <==> p in b && p in c && ContentDiffers(b[p], c[p])
      ensures p in extra <==> p in c && p !in b
    {
      PicksAreSets(b, c, s, p);
    }
    SortAscends(missing);
    SortAscends(modified);
    SortAscends(extra);
    UnpickedHolds(examined, (set p | p in missing) + (set p | p in modified));
    OkIff(missing, modified);
    hide StrictlyAscending;
  }

  lemma OkIff(missing: seq<string>, modified: seq<string>)
    ensures missing == [] && modified == [] <==> forall p :: p !in missing && p !in modified
  {
    if missing != [] { assert missing[0] in missing; }
    if modified != [] { assert modified[0] in modified; }
  }

  /** `LegacyHooks.is_drift`. */
  predicate IsDrift(summary: Summary, failed: bool, alertOnExtra: bool) {
    failed || summary.missing != [] || summary.modified != [] || (alertOnExtra && summary.extra != [])
  }

  /** Without `alert_on_extra`, new files alone are no drift, though they are changes. */
  lemma DriftIff(b: Tree, c: Tree, s: seq<Change>, examined: seq<string>, alertOnExtra: bool)
    requires AllChanges(b, c, s) && IsTree(b) && IsTree(c) && forall p :: p in examined <==> p in b
    ensures IsDrift(SummaryFor(s, examined), false, alertOnExtra) <==>
      || (exists p :: p in b && (p !in c || ContentDiffers(b[p], c[p])))
      || (alertOnExtra && exists p :: p in c && p !in b)
    ensures IsDrift(SummaryFor(s, examined), true, alertOnExtra)
  {
    SummaryIsComparison(b, c, s, examined);
    hide AllChanges, ContentDiffers, SummaryFor;
    var r := SummaryFor(s, examined);
    if r.missing != [] { assert r.missing[0] in r.missing; }
    if r.modified != [] { assert r.modified[0] in r.modified; }
    if r.extra != [] { assert r.extra[0] in r.extra; }
  }
}

/** `IntegrityMonitor._verify_paths` against a full pass. */
module Monitor {
  import opened Wrappers
  import opened PathOrder
  import opened Snapshots
  import opened Changes
  import opened Detector

  ghost predicate Covered(paths: set<string>, p: string) {
    exists q :: q in paths && Covers(q, p)
  }

  /** `Target.at` gives the file at `q` when there is one, and only otherwise what lies below `q`. */
  predicate Reaches(current: Tree, q: string, p: string) {
    if q in current then p == q else Covers(q, p)
  }

  ghost predicate Reached(current: Tree, paths: set<string>, p: string) {
    exists q :: q in paths && Reaches(current, q, p)
  }

  ghost function Examined(b: Tree, paths: set<string>): Tree {
    map p | p in b && Covered(paths, p) :: b[p]
  }

  ghost function FoundAt(current: Tree, paths: set<string>): Tree {
    map p | p in current && Reached(current, paths, p) :: current[p]
  }

  ghost function ExaminedAt(b: Tree, q: string): Tree {
    map p | p in b && Covers(q, p) :: b[p]
  }

  ghost function ReachedAt(current: Tree, q: string): Tree {
    map p | p in current && Reaches(current, q, p) :: current[p]
  }

  /** `Target.at`, with the entry that hashing the file gives. */
  method At(current: Tree, q: string) returns (r: Tree)
    ensures r == ReachedAt(current, q)
  {
    r := map p | p in current && Reaches(current, q, p) :: current[p];
  }

  /** The loop of `_verify_paths`: what the baseline and the target hold at the paths. */
  method Collect(baseline: seq<Entry>, current: Tree, paths: set<string>) returns (recorded: Tree, found: Tree)
    requires Ascending(baseline)
    ensures recorded == Examined(Index(baseline), paths) && found == FoundAt(current, paths)
  {
    hide Ascending, Index, Covers, Reaches, Examined, FoundAt, ExaminedAt, ReachedAt;
    ghost var index := Index(baseline);
    NothingExamined(index, current);
    recorded, found := map[], map[];
    var left := paths;
    assert paths - left == {};
    while left != {}
      invariant left <= paths
      invariant recorded == Examined(index, paths - left)
      invariant found == FoundAt(current, paths - left)
    {
      var q :| q in left;
      var below := Below(baseline, Index(baseline), q);
      var at := At(current, q);
      PartOfBaseline(baseline, below, q);
      ghost var done := paths - left;
      ExaminedStep(index, current, done, q);
      recorded := recorded + Index(below);
      found := found + at;
      left := left - {q};
      assert paths - left == done + {q};
    }
    assert paths - left == paths;
  }

  /** `_verify_paths`: the changes found, and the tree the report carries. */
  method VerifyPaths(baseline: seq<Entry>, current: Tree, paths: set<string>)
    returns (changes: seq<Change>, tree: seq<Entry>)
    requires Ascending(baseline) && IsTree(current)
    ensures AllChanges(Examined(Index(baseline), paths), FoundAt(current, paths), changes)
    ensures Ascending(tree)
    ensures Index(tree) == (Index(baseline) - Examined(Index(baseline), paths).Keys) + FoundAt(current, paths)
  {
    hide Ascending, Index, AllChanges, IsTree, Examined, FoundAt;
    var recorded, found := Collect(baseline, current, paths);
    IndexIsTree(baseline);
    PartsAreTrees(Index(baseline), current, paths);
    var before := Sorted(recorded);
    var after := Sorted(found);
    var r := DetectChanges(before, after, "", "");
    changes := r.value;
    tree := Merged(baseline, recorded.Keys, after);
  }

  lemma NothingExamined(b: Tree, current: Tree)
    ensures Examined(b, {}) == map[] && FoundAt(current, {}) == map[]
  {
  }

  lemma ExaminedStep(b: Tree, current: Tree, paths: set<string>, q: string)
    ensures Examined(b, paths + {q}) == Examined(b, paths) + ExaminedAt(b, q)
    ensures FoundAt(current, paths + {q}) == FoundAt(current, paths) + ReachedAt(current, q)
  {
    hide Covers, Reaches, Covered, Reached;
    forall p
      ensures Covered(paths + {q}, p) <==> Covered(paths, p) || Covers(q, p)
      ensures Reached(current, paths + {q}, p) <==> Reached(current, paths, p) || Reaches(current, q, p)
    {
      OneMorePath(current, paths, q, p);
    }
  }

  lemma OneMorePath(current: Tree, paths: set<string>, q: string, p: string)
    ensures Covered(paths + {q}, p) <==> Covered(paths, p) || Covers(q, p)
    ensures Reached(current, paths + {q}, p) <==> Reached(current, paths, p) || Reaches(current, q, p)
  {
    hide Covers, Reaches;
    assert q in paths + {q};
    if Covered(paths, p) {
      var x :| x in paths && Covers(x, p);
      assert x in paths + {q};
    }
    if Reached(current, paths, p) {
      var x :| x in paths && Reaches(current, x, p);
      assert x in paths + {q};
    }
  }

  lemma PartsAreTrees(b: Tree, current: Tree, paths: set<string>)
    requires IsTree(b) && IsTree(current)
    ensures IsTree(Examined(b, paths)) && IsTree(FoundAt(current, paths))
  {
    hide Covered, Reached;
  }

  lemma PartOfBaseline(baseline: seq<Entry>, below: seq<Entry>, q: string)
    requires Ascending(baseline) && forall e :: e in below <==> e in baseline && Covers(q, e.path)
    ensures Index(below) == ExaminedAt(Index(baseline), q)
  {
    hide Ascending, Covers;
    IndexOfAscending(baseline);
    IndexIsTree(baseline);
    IndexIsTree(below);
    var t, u := Index(baseline), Index(below);
    hide Index;
    forall p ensures p in u <==> p in t && Covers(q, p) {
      if p in u { assert u[p] in below && u[p].path == p; }
      if p in t && Covers(q, p) {
        assert t[p] in below && t[p].path == p;
        var i :| 0 <= i < |below| && below[i] == t[p];
        assert below[i].path in u;
      }
    }
    forall p | p in u ensures u[p] == t[p] {
      assert u[p] in below && u[p].path == p;
    }
  }

  /** What lies outside the paths is as the baseline has it. */
  ghost predicate SameOutside(b: Tree, current: Tree, paths: set<string>) {
    forall p :: !Covered(paths, p) ==> (p in b <==> p in current) && (p in b ==> b[p] == current[p])
  }

  /** No file below the paths is missed. */
  ghost predicate NothingMissed(current: Tree, paths: set<string>) {
    forall p :: p in current && Covered(paths, p) ==> Reached(current, paths, p)
  }

  /** The merged tree is the current one exactly if nothing is missed. */
  lemma MergedIsCurrentIff(b: Tree, current: Tree, paths: set<string>)
    requires SameOutside(b, current, paths)
    ensures (b - Examined(b, paths).Keys) + FoundAt(current, paths) == current <==> NothingMissed(current, paths)
  {
    hide Reaches, Covers;
    forall p | Reached(current, paths, p) ensures Covered(paths, p) {
      var q :| q in paths && Reaches(current, q, p);
      ReachesCovers(current, q, p);
    }
    hide Covered, Reached;
    var merged := (b - Examined(b, paths).Keys) + FoundAt(current, paths);
    if NothingMissed(current, paths) {
      assert merged.Keys == current.Keys;
    } else {
      var p :| p in current && Covered(paths, p) && !Reached(current, paths, p);
      assert p !in merged;
    }
  }

  lemma ReachesCovers(current: Tree, q: string, p: string)
    requires Reaches(current, q, p)
    ensures Covers(q, p)
  {
  }

  /** In a file system, where no file has files below it, nothing is ever missed. */
  lemma FileSystemMissesNothing(current: Tree, paths: set<string>)
    requires "" !in current && forall q, p :: q in current && p in current ==> !IsUnder(q, p)
    ensures NothingMissed(current, paths)
  {
    forall p | p in current && Covered(paths, p) ensures Reached(current, paths, p) {
      var q :| q in paths && Covers(q, p);
      assert Reaches(current, q, p);
    }
  }

  /** A partial pass over any paths, overlapping ones included, finds the changes a full deep pass finds,
      the rest of the tree being as the baseline has it, exactly if nothing is missed. */
  lemma PartialFindsAllIff(b: Tree, current: Tree, paths: set<string>, partial: seq<Change>, full: seq<Change>)
    requires IsTree(b) && IsTree(current) && SameOutside(b, current, paths)
    requires AllChanges(Examined(b, paths), FoundAt(current, paths), partial)
    requires AllChanges(b, current, full)
    ensures partial == full <==> NothingMissed(current, paths)
  {
    hide *;
    if NothingMissed(current, paths) {
      PartialFindsAll(b, current, paths, partial, full);
    } else {
      var p := SomeMissed(current, paths);
      MissedShows(b, current, paths, partial, full, p);
    }
  }

  lemma SomeMissed(current: Tree, paths: set<string>) returns (p: string)
    requires !NothingMissed(current, paths)
    ensures p in current && Covered(paths, p) && !Reached(current, paths, p)
  {
    p :| p in current && Covered(paths, p) && !Reached(current, paths, p);
  }

  lemma PartialFindsAll(b: Tree, current: Tree, paths: set<string>, partial: seq<Change>, full: seq<Change>)
    requires IsTree(b) && IsTree(current)
    requires SameOutside(b, current, paths) && NothingMissed(current, paths)
    requires AllChanges(Examined(b, paths), FoundAt(current, paths), partial)
    requires AllChanges(b, current, full)
    ensures partial == full
  {
    hide Reaches, Covers, InOrder, IsChange;
    forall p | Reached(current, paths, p) ensures Covered(paths, p) {
      var q :| q in paths && Reaches(current, q, p);
      ReachesCovers(current, q, p);
    }
    var x, y := Examined(b, paths), FoundAt(current, paths);
    assert forall p :: p in y <==> p in current && Covered(paths, p);
    forall ch ensures IsChange(x, y, ch) <==> IsChange(b, current, ch) {
      PartialChange(b, current, x, y, paths, ch);
    }
    OneList(partial, full);
  }

  /** A missed path is reported as gone if it was recorded, and not as new if it was not. */
  lemma MissedShows(b: Tree, current: Tree, paths: set<string>, partial: seq<Change>, full: seq<Change>, p: string)
    requires IsTree(b) && IsTree(current)
    requires p in current && Covered(paths, p) && !Reached(current, paths, p)
    requires AllChanges(Examined(b, paths), FoundAt(current, paths), partial)
    requires AllChanges(b, current, full)
    ensures partial != full
  {
    hide InOrder, IsChange, Covered, Reached;
    var x, y := Examined(b, paths), FoundAt(current, paths);
    PartsAreTrees(b, current, paths);
    if p in b {
      VanishedOnce(x, y, partial, p);
      var i :| 0 <= i < |partial| && Removes(partial[i], p);
      assert partial[i] in partial;
      NotRemoved(b, current, partial[i], p);
    } else {
      ArrivedOnce(b, current, full, p);
      var i :| 0 <= i < |full| && Sets(full[i], p);
      assert full[i] in full;
      NotSet(x, y, full[i], p);
    }
  }

  lemma NotRemoved(b: Tree, c: Tree, ch: Change, p: string)
    requires p in c && Removes(ch, p)
    ensures !IsChange(b, c, ch)
  {
  }

  lemma NotSet(b: Tree, c: Tree, ch: Change, p: string)
    requires p !in c && Sets(ch, p)
    ensures !IsChange(b, c, ch)
  {
  }

  /** For instance, nothing changed, and there is a file at the path and another below it, as an object
      store can have: the pass over the path reports the lower file as deleted. */
  lemma FileBelowFileLooksDeleted(tree: Tree, partial: seq<Change>, full: seq<Change>)
    requires IsTree(tree) && "a" in tree && "a/b" in tree
    requires AllChanges(Examined(tree, {"a"}), FoundAt(tree, {"a"}), partial) && AllChanges(tree, tree, full)
    ensures full == [] && exists i :: 0 <= i < |partial| && partial[i].kind.Deleted? && partial[i].path == "a/b"
  {
    hide InOrder, IsChange;
    NothingIff(tree, tree, full);
    var paths, q, p := {"a"}, "a", "a/b";
    assert "a" + SEPARATOR == "a/" && p[..2] == "a/";
    assert Covers(q, p) && Covered(paths, p) && !Reached(tree, paths, p);
    var x, y := Examined(tree, paths), FoundAt(tree, paths);
    PartsAreTrees(tree, tree, paths);
    assert p in x && p !in y;
    VanishedOnce(x, y, partial, p);
    var i :| 0 <= i < |partial| && Removes(partial[i], p);
    assert partial[i] in partial;
    forall n | n in y ensures n in x {
      var r :| r in paths && Reaches(tree, r, n);
      ReachesCovers(tree, r, n);
    }
    NothingNew(x, y, partial[i]);
  }

  lemma NothingNew(b: Tree, c: Tree, ch: Change)
    requires IsChange(b, c, ch) && forall p :: p in c ==> p in b
    ensures !ch.kind.Renamed?
  {
  }

  /** `x` and `y` are `b` and `c` without paths at which the two are equal. */
  ghost predicate CutAlike(b: Tree, c: Tree, x: Tree, y: Tree) {
    && (forall p :: p in x ==> p in b && x[p] == b[p])
    && (forall p :: p in y ==> p in c && y[p] == c[p])
    && (forall p :: p in b && p !in x ==> p !in y && p in c && b[p] == c[p])
    && (forall p :: p in c && p !in y ==> p !in x && p in b && b[p] == c[p])
  }

  lemma PartialChange(b: Tree, current: Tree, x: Tree, y: Tree, paths: set<string>, ch: Change)
    requires SameOutside(b, current, paths)
    requires x == Examined(b, paths)
    requires y == map p | p in current && Covered(paths, p) :: current[p]
    ensures IsChange(x, y, ch) <==> IsChange(b, current, ch)
  {
    hide Covered, IsChange;
    assert CutAlike(b, current, x, y);
    CutKeepsChange(b, current, x, y, ch);
  }

  lemma CutKeepsChange(b: Tree, c: Tree, x: Tree, y: Tree, ch: Change)
    requires CutAlike(b, c, x, y)
    ensures IsChange(x, y, ch) <==> IsChange(b, c, ch)
  {
    hide ContentDiffers, MetadataDifferences, NoteFor, ContentKey, Pairs;
    forall k ensures OnlyIn(x, y, k) == OnlyIn(b, c, k) && OnlyIn(y, x, k) == OnlyIn(c, b, k) {
    }
    forall k ensures Pairs(x, y, k) <==> Pairs(b, c, k) {
      PairsOf(b, c, k);
      PairsOf(x, y, k);
    }
    hide OnlyIn;
    forall e ensures !ContentDiffers(e, e) && MetadataDifferences(e, e) == [] {
      SameEntry(e);
    }
  }

  lemma PairsOf(b: Tree, c: Tree, k: Key)
    ensures Pairs(b, c, k) <==> |OnlyIn(b, c, k)| == 1 && |OnlyIn(c, b, k)| == 1
  {
  }

  lemma SameEntry(e: Entry)
    ensures !ContentDiffers(e, e) && MetadataDifferences(e, e) == []
  {
  }

  // ---------------------------------------------------------------- accepting a report

  /** A snapshot: its entries, and the algorithm of their checksums. */
  datatype Shot = Shot(entries: seq<Entry>, algorithm: string)

  /** The part of a report that `accept` looks at: whose it is, the tree it saw, whether it remediated. */
  datatype Report = Report(target: string, tree: Option<Shot>, remediated: bool)

  /** `accept` up to the storing: what becomes the baseline, or `None` for its exceptions. `stored` is
      the baseline so far, if any. */
  method Accept(configured: bool, report: Option<Report>, target: string, stored: Option<Shot>, own: string,
                current: Tree)
    returns (r: Option<Shot>)
    requires IsTree(current)
    ensures r.None? <==> !configured || (report.Some? && report.value.target != target)
    ensures r.Some? && report.Some? && report.value.tree.Some? && !report.value.remediated ==> r == report.value.tree
    ensures r.Some? && (report.None? || report.value.tree.None? || report.value.remediated) ==>
      Ascending(r.value.entries) && Index(r.value.entries) == current
      && r.value.algorithm == if stored.Some? then stored.value.algorithm else own
  {
    hide Ascending, Index;
    if !configured {
      return None;
    }
    if report.Some? {
      if report.value.target != target {
        return None;
      }
      if report.value.tree.Some? && !report.value.remediated {
        return report.value.tree;
      }
    }
    var entries := Sorted(current);
    return Some(Shot(entries, if stored.Some? then stored.value.algorithm else own));
  }

  /** Accepting the report of a partial pass: the next full pass over the same tree finds nothing exactly
      if that pass missed nothing, and then the baseline is the snapshot of the tree, entry by entry. */
  lemma AcceptedPartialIsQuietIff(b: Tree, current: Tree, paths: set<string>, accepted: seq<Entry>,
                                  snapshot: seq<Entry>, next: seq<Change>)
    requires IsTree(b) && IsTree(current) && SameOutside(b, current, paths)
    requires Ascending(accepted) && Index(accepted) == (b - Examined(b, paths).Keys) + FoundAt(current, paths)
    requires Ascending(snapshot) && Index(snapshot) == current
    requires AllChanges(Index(accepted), Index(snapshot), next)
    ensures next == [] <==> NothingMissed(current, paths)
    ensures NothingMissed(current, paths) ==> accepted == snapshot
  {
    hide Ascending, Index, AllChanges, Examined, FoundAt;
    MergedIsCurrentIff(b, current, paths);
    IndexIsTree(accepted);
    if NothingMissed(current, paths) {
      AcceptedIsQuiet(accepted, snapshot, next);
    } else {
      var p := SomeMissed(current, paths);
      MissedIsNotMerged(b, current, paths, p);
      NothingIff(Index(accepted), current, next);
    }
  }

  lemma MissedIsNotMerged(b: Tree, current: Tree, paths: set<string>, p: string)
    requires Covered(paths, p) && !Reached(current, paths, p)
    ensures p !in (b - Examined(b, paths).Keys) + FoundAt(current, paths)
  {
  }

  /** Once the tree as it is is accepted, a full pass over it finds nothing. */
  lemma AcceptedIsQuiet(accepted: seq<Entry>, snapshot: seq<Entry>, next: seq<Change>)
    requires Ascending(accepted) && Ascending(snapshot) && Index(accepted) == Index(snapshot)
    requires AllChanges(Index(accepted), Index(snapshot), next)
    ensures next == [] && accepted == snapshot
  {
    hide AllChanges, Ascending, Index;
    IndexIsTree(accepted);
    NothingIff(Index(accepted), Index(snapshot), next);
    IndexOfAscending(accepted);
    IndexOfAscending(snapshot);
    OneAscendingList(accepted, snapshot);
  }
}
