/** The order of paths, by code points as Python compares strings. */
module PathOrder {

  predicate Less(a: string, b: string) {
    if b == "" then false
    else if a == "" then true
    else if a[0] != b[0] then a[0] < b[0]
    else Less(a[1..], b[1..])
  }

  /** One string goes before another if it is the start of it, or at the first place where they are not the same
      has the lower character. */
  ghost predicate GoesBefore(a: string, b: string, k: int) {
    0 <= k <= |a| && k < |b| && a[..k] == b[..k] && (k == |a| || a[k] < b[k])
  }

  lemma {:induction false} LessIff(a: string, b: string)
    ensures Less(a, b) <==> exists k :: GoesBefore(a, b, k)
  {
    if b != "" && a != "" {
      if a[0] == b[0] {
        LessIff(a[1..], b[1..]);
        if k :| GoesBefore(a[1..], b[1..], k) {
          assert a[..k+1] == [a[0]] + a[1..][..k] && b[..k+1] == [b[0]] + b[1..][..k];
          assert GoesBefore(a, b, k + 1);
        }
        if k :| GoesBefore(a, b, k) {
          assert k > 0;
          assert a[1..][..k-1] == a[..k][1..] && b[1..][..k-1] == b[..k][1..];
          assert GoesBefore(a[1..], b[1..], k - 1);
        }
      } else {
        assert GoesBefore(a, b, 0) <==> a[0] < b[0];
        assert forall k :: GoesBefore(a, b, k) && k > 0 ==> a[..k][0] == b[..k][0];
      }
    } else if b != "" {
      assert GoesBefore(a, b, 0);
    }
  }

  lemma {:induction false} LessTransitive(a: string, b: string, c: string)
    requires Less(a, b) && Less(b, c)
    ensures Less(a, c)
  {
    if a != "" && a[0] == b[0] && b[0] == c[0] { LessTransitive(a[1..], b[1..], c[1..]); }
  }

  lemma {:induction false} LessTotal(a: string, b: string)
    ensures Less(a, b) || a == b || Less(b, a)
    ensures !(Less(a, b) && Less(b, a)) && !Less(a, a)
  {
    if a != "" && b != "" && a[0] == b[0] {
      LessTotal(a[1..], b[1..]);
      assert a == [a[0]] + a[1..] && b == [b[0]] + b[1..];
    }
    if a != "" { LessTotal(a[1..], a[1..]); }
  }

  const SEPARATOR := "/"
  /** The character that sorts right after the separator. */
  const AFTER_SEPARATOR := "0"

  /** What lies in `[path + "/", path + "0")` is what starts with `path + "/"`. */
  lemma {:induction false} PrefixIsRange(path: string, s: string)
    ensures !Less(s, path + SEPARATOR) && Less(s, path + AFTER_SEPARATOR) <==> path + SEPARATOR <= s
  {
    if path == "" {
      assert path + SEPARATOR == "/" && path + AFTER_SEPARATOR == "0";
      assert "/"[1..] == "" && "0"[1..] == "";
    } else if s != "" {
      var rest := path[1..];
      assert (path + SEPARATOR)[1..] == rest + SEPARATOR && (path + AFTER_SEPARATOR)[1..] == rest + AFTER_SEPARATOR;
      PrefixIsRange(rest, s[1..]);
      assert s == [s[0]] + s[1..];
      assert path + SEPARATOR == [path[0]] + (rest + SEPARATOR);
    }
  }
}

/** Snapshots: the files of a tree, sorted by path. */
module Snapshots {
  import opened Collections
  import opened Wrappers
  import opened PathOrder

  /** One file. What a backend cannot provide is `None`. */
  datatype Entry = Entry(
    path: string, size: Option<nat>, modifiedAt: Option<int>, checksum: string,
    contentType: Option<string>, version: Option<string>, etag: Option<string>, mode: Option<nat>)

  type Tree = map<string, Entry>

  ghost predicate Ascending(s: seq<Entry>) {
    forall i, j :: 0 <= i < j < |s| ==> Less(s[i].path, s[j].path)
  }

  ghost predicate IsTree(t: Tree) {
    forall p :: p in t ==> t[p].path == p
  }

  /** The entries by path; of two with one path the later. */
  function Index(s: seq<Entry>): Tree {
    if s == [] then map[] else Index(s[..|s|-1])[s[|s|-1].path := s[|s|-1]]
  }

  lemma {:induction false} IndexIsTree(s: seq<Entry>)
    ensures IsTree(Index(s))
    ensures forall p :: p in Index(s) ==> Index(s)[p] in s
    ensures forall i :: 0 <= i < |s| ==> s[i].path in Index(s)
  {
    if s != [] {
      IndexIsTree(s[..|s|-1]);
      assert s == s[..|s|-1] + [s[|s|-1]];
    }
  }

  lemma {:induction false} IndexOfAscending(s: seq<Entry>)
    requires Ascending(s)
    ensures forall i :: 0 <= i < |s| ==> s[i].path in Index(s) && Index(s)[s[i].path] == s[i]
    ensures forall e :: e in s <==> e.path in Index(s) && Index(s)[e.path] == e
  {
    IndexIsTree(s);
    forall i | 0 <= i < |s| ensures Index(s)[s[i].path] == s[i] {
      AscendingFinds(s, i);
    }
  }

  lemma {:induction false} AscendingFinds(s: seq<Entry>, i: nat)
    requires Ascending(s) && i < |s|
    ensures s[i].path in Index(s) && Index(s)[s[i].path] == s[i]
  {
    if i < |s| - 1 {
      AscendingFinds(s[..|s|-1], i);
      LessTotal(s[i].path, s[i].path);
      assert Less(s[i].path, s[|s|-1].path);
    }
  }

  /** Two ascending lists of one tree are the same list. */
  lemma {:induction false} OneAscendingList(a: seq<Entry>, b: seq<Entry>)
    requires Ascending(a) && Ascending(b) && forall e :: e in a <==> e in b
    ensures a == b
  {
    if a == [] {
      NothingIn(b);
    } else {
      assert a[0] in b && b != [] && b[0] in a;
      if a[0] != b[0] {
        var i :| 0 <= i < |b| && b[i] == a[0];
        var j :| 0 <= j < |a| && a[j] == b[0];
        LessTotal(a[0].path, b[0].path);
        assert false;
      }
      forall e ensures e in a[1..] <==> e in b[1..] {
        assert e in a <==> e == a[0] || e in a[1..];
        assert e in b <==> e == b[0] || e in b[1..];
        TailDiffers(a);
        TailDiffers(b);
      }
      OneAscendingList(a[1..], b[1..]);
    }
  }

  lemma TailDiffers(s: seq<Entry>)
    requires Ascending(s) && s != []
    ensures s[0] !in s[1..]
  {
    LessTotal(s[0].path, s[0].path);
  }

  // ---------------------------------------------------------------- building

  function InsertByPath(e: Entry, s: seq<Entry>): seq<Entry> {
    if s == [] || !Less(s[0].path, e.path) then [e] + s else [s[0]] + InsertByPath(e, s[1..])
  }

  /** `sorted(entries, key=path)`. */
  function SortByPath(s: seq<Entry>): seq<Entry> {
    if s == [] then [] else InsertByPath(s[0], SortByPath(s[1..]))
  }

  ghost predicate DistinctPaths(s: seq<Entry>) {
    forall i, j :: 0 <= i < j < |s| ==> s[i].path != s[j].path
  }

  lemma {:induction false} InsertAscending(e: Entry, s: seq<Entry>)
    requires Ascending(s) && forall x :: x in s ==> x.path != e.path
    ensures Ascending(InsertByPath(e, s)) && forall x :: x in InsertByPath(e, s) <==> x == e || x in s
  {
    if s == [] {
    } else if !Less(s[0].path, e.path) {
      forall x | x in s ensures Less(e.path, x.path) {
        LessTotal(e.path, s[0].path);
        if x != s[0] {
          assert Less(s[0].path, x.path);
          LessTransitive(e.path, s[0].path, x.path);
        }
      }
    } else {
      assert s == [s[0]] + s[1..];
      InsertAscending(e, s[1..]);
      var rest := InsertByPath(e, s[1..]);
      forall i | 0 <= i < |rest| ensures Less(s[0].path, rest[i].path) {
        assert rest[i] in rest;
      }
    }
  }

  lemma {:induction false} SortAscends(s: seq<Entry>)
    requires DistinctPaths(s)
    ensures Ascending(SortByPath(s)) && forall x :: x in SortByPath(s) <==> x in s
  {
    if s != [] {
      SortAscends(s[1..]);
      assert s == [s[0]] + s[1..];
      forall x | x in SortByPath(s[1..]) ensures x.path != s[0].path {
        var k :| 0 <= k < |s[1..]| && s[1..][k] == x;
        assert s[k+1] == x;
      }
      InsertAscending(s[0], SortByPath(s[1..]));
    }
  }

  /** `Snapshot.__post_init__`: the entries in order, or `None` when a path occurs twice. */
  method MakeSnapshot(entries: seq<Entry>) returns (ordered: Option<seq<Entry>>)
    ensures ordered.Some? <==> DistinctPaths(entries)
    ensures ordered.Some? ==> Ascending(ordered.value) && forall e :: e in ordered.value <==> e in entries
  {
    var index := Index(entries);
    DistinctIffSize(entries);
    if |index| != |entries| {
      return None;
    }
    SortAscends(entries);
    return Some(SortByPath(entries));
  }

  /** A path that occurs twice makes the index smaller than the list. */
  lemma {:induction false} DistinctIffSize(s: seq<Entry>)
    ensures |Index(s)| <= |s|
    ensures |Index(s)| == |s| <==> DistinctPaths(s)
  {
    hide Index, DistinctPaths;
    IndexStep(s);
    DistinctStep(s);
    if s != [] {
      var rest, last := s[..|s|-1], s[|s|-1];
      DistinctIffSize(rest);
      IndexIsTree(rest);
      SizeStep(Index(rest), last);
      assert last.path in Index(rest) <==> exists x :: x in rest && x.path == last.path;
    }
  }

  lemma DistinctStep(s: seq<Entry>)
    ensures s == [] ==> DistinctPaths(s)
    ensures s != [] ==>
      (DistinctPaths(s) <==> DistinctPaths(s[..|s|-1]) && forall x :: x in s[..|s|-1] ==> x.path != s[|s|-1].path)
  {
    if s != [] {
      var rest, last := s[..|s|-1], s[|s|-1];
      assert forall i :: 0 <= i < |rest| ==> rest[i] == s[i] && rest[i] in rest;
    }
  }

  lemma IndexStep(s: seq<Entry>)
    ensures Index(s) == if s == [] then map[] else Index(s[..|s|-1])[s[|s|-1].path := s[|s|-1]]
  {
  }

  lemma SizeStep(t: Tree, e: Entry)
    ensures |t[e.path := e]| == if e.path in t then |t| else |t| + 1
  {
    var u := t[e.path := e];
    assert u.Keys == t.Keys + {e.path};
    assert |u.Keys| == |u| && |t.Keys| == |t|;
  }

  // ---------------------------------------------------------------- below

  /** `bisect_left(entries, key, key=path)`. */
  method BisectLeft(s: seq<Entry>, key: string) returns (n: nat)
    requires Ascending(s)
    ensures n <= |s|
    ensures forall i :: 0 <= i < n ==> Less(s[i].path, key)
    ensures forall i :: n <= i < |s| ==> !Less(s[i].path, key)
  {
    var lo, hi := 0, |s|;
    while lo < hi
      invariant 0 <= lo <= hi <= |s|
      invariant forall i :: 0 <= i < lo ==> Less(s[i].path, key)
      invariant forall i :: hi <= i < |s| ==> !Less(s[i].path, key)
    {
      var mid := (lo + hi) / 2;
      if Less(s[mid].path, key) {
        forall i | 0 <= i <= mid ensures Less(s[i].path, key) {
          if i < mid { LessTransitive(s[i].path, s[mid].path, key); }
        }
        lo := mid + 1;
      } else {
        forall i | mid <= i < |s| ensures !Less(s[i].path, key) {
          if i > mid && Less(s[i].path, key) { LessTransitive(s[mid].path, s[i].path, key); }
        }
        hi := mid;
      }
    }
    return lo;
  }

  predicate IsUnder(path: string, p: string) {
    path + SEPARATOR <= p
  }

  /** The entries under the directory `path`, in order. */
  function Under(s: seq<Entry>, path: string): seq<Entry> {
    if s == [] then []
    else if IsUnder(path, s[0].path) then [s[0]] + Under(s[1..], path)
    else Under(s[1..], path)
  }

  /** `path` itself or something under it; the empty path is the whole tree. */
  predicate Covers(path: string, p: string) {
    path == "" || p == path || IsUnder(path, p)
  }

  lemma {:induction false} UnderIsSlice(s: seq<Entry>, path: string, a: nat, b: nat)
    requires a <= b <= |s|
    requires forall i :: 0 <= i < |s| ==> (IsUnder(path, s[i].path) <==> a <= i < b)
    ensures Under(s, path) == s[a..b]
  {
    hide IsUnder;
    if s != [] {
      var rest := s[1..];
      if a == 0 && b > 0 {
        UnderIsSlice(rest, path, 0, b - 1);
        assert s[a..b] == [s[0]] + rest[0..b-1];
      } else if a == 0 {
        UnderIsSlice(rest, path, 0, 0);
        assert s[a..b] == rest[0..0];
      } else {
        UnderIsSlice(rest, path, a - 1, b - 1);
        assert s[a..b] == rest[a-1..b-1];
      }
    }
  }

  /** `Snapshot.below`: the entry at `path` and everything under it. */
  method Below(s: seq<Entry>, index: Tree, path: string) returns (r: seq<Entry>)
    requires Ascending(s) && index == Index(s)
    ensures path == "" ==> r == s
    ensures path != "" ==> r == (if path in index then [index[path]] else []) + Under(s, path)
    ensures forall e :: e in r <==> e in s && Covers(path, e.path)
  {
    hide Index, Ascending, Under;
    if path == "" {
      return s;
    }
    var start := BisectLeft(s, path + SEPARATOR);
    var end := BisectLeft(s, path + AFTER_SEPARATOR);
    BoundsAreRange(s, path, start, end);
    UnderIsSlice(s, path, start, end);
    r := (if path in index then [index[path]] else []) + s[start..end];
    BelowHolds(s, path);
  }

  lemma {:induction false} BelowHolds(s: seq<Entry>, path: string)
    requires Ascending(s) && path != ""
    ensures var r := (if path in Index(s) then [Index(s)[path]] else []) + Under(s, path);
      forall e :: e in r <==> e in s && Covers(path, e.path)
  {
    hide Ascending, Under, Index;
    IndexOfAscending(s);
    IndexIsTree(s);
    UnderHolds(s, path);
  }

  lemma BoundsAreRange(s: seq<Entry>, path: string, start: nat, end: nat)
    requires start <= |s| && end <= |s|
    requires forall i :: 0 <= i < start ==> Less(s[i].path, path + SEPARATOR)
    requires forall i :: start <= i < |s| ==> !Less(s[i].path, path + SEPARATOR)
    requires forall i :: 0 <= i < end ==> Less(s[i].path, path + AFTER_SEPARATOR)
    requires forall i :: end <= i < |s| ==> !Less(s[i].path, path + AFTER_SEPARATOR)
    ensures start <= end
    ensures forall i :: 0 <= i < |s| ==> (IsUnder(path, s[i].path) <==> start <= i < end)
  {
    SeparatorFirst(path);
    if start > 0 { LessTransitive(s[start-1].path, path + SEPARATOR, path + AFTER_SEPARATOR); }
    forall i | 0 <= i < |s| ensures IsUnder(path, s[i].path) <==> start <= i < end {
      PrefixIsRange(path, s[i].path);
    }
  }

  lemma {:induction false} UnderHolds(s: seq<Entry>, path: string)
    ensures forall e :: e in Under(s, path) <==> e in s && IsUnder(path, e.path)
  {
    if s != [] {
      UnderHolds(s[1..], path);
      assert s == [s[0]] + s[1..];
    }
  }

  lemma {:induction false} SeparatorFirst(path: string)
    ensures Less(path + SEPARATOR, path + AFTER_SEPARATOR)
  {
    if path == "" {
      assert path + SEPARATOR == "/" && path + AFTER_SEPARATOR == "0";
    } else {
      assert (path + SEPARATOR)[1..] == path[1..] + SEPARATOR;
      assert (path + AFTER_SEPARATOR)[1..] == path[1..] + AFTER_SEPARATOR;
      SeparatorFirst(path[1..]);
    }
  }

  // ---------------------------------------------------------------- merged

  /** `Snapshot.merged`: the entries without those removed, with those added on top. */
  method Merged(s: seq<Entry>, removed: set<string>, added: seq<Entry>) returns (r: seq<Entry>)
    requires Ascending(s)
    ensures Ascending(r)
    ensures Index(r) == (Index(s) - removed) + Index(added)
  {
    var kept: Tree := map[];
    for i := 0 to |s|
      invariant kept == Index(s[..i]) - removed
    {
      assert s[..i+1][..i] == s[..i];
      if s[i].path !in removed {
        kept := kept[s[i].path := s[i]];
      }
    }
    assert s[..|s|] == s;
    for i := 0 to |added|
      invariant kept == (Index(s) - removed) + Index(added[..i])
    {
      assert added[..i+1][..i] == added[..i];
      kept := kept[added[i].path := added[i]];
    }
    assert added[..|added|] == added;
    IndexIsTree(s);
    IndexIsTree(added);
    r := Sorted(kept);
  }

  /** The values of a tree as a snapshot lists them. */
  method Sorted(t: Tree) returns (r: seq<Entry>)
    requires IsTree(t)
    ensures Ascending(r) && Index(r) == t
    ensures forall e :: e in r <==> e.path in t && t[e.path] == e
  {
    var left := t.Keys;
    var values: seq<Entry> := [];
    while left != {}
      invariant left <= t.Keys
      invariant forall e :: e in values <==> e.path in t && e.path !in left && t[e.path] == e
      invariant DistinctPaths(values)
    {
      var p :| p in left;
      values := values + [t[p]];
      left := left - {p};
    }
    SortAscends(values);
    r := SortByPath(values);
    IndexOfEntries(r, t);
  }

  lemma IndexOfEntries(s: seq<Entry>, t: Tree)
    requires Ascending(s) && IsTree(t) && forall e :: e in s <==> e.path in t && t[e.path] == e
    ensures Index(s) == t
  {
    hide Ascending, Index;
    IndexOfAscending(s);
    IndexIsTree(s);
    forall p ensures p in Index(s) <==> p in t {
      if p in t { assert t[p] in s; }
      if p in Index(s) { assert Index(s)[p] in s; }
    }
  }
}
