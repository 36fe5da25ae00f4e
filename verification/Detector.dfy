/** What the changes between two trees are, and what they amount to. */
module Changes {
  import opened Collections
  import opened Wrappers
  import opened PathOrder
  import opened Snapshots

  datatype ChangeKind = Created | Modified | Deleted | Renamed | MetadataChanged | PermissionChanged

  /** The remark on a rename that could not be told: how many files left and arrived. */
  datatype Note = NoNote | Ambiguous(gone: nat, arrived: nat, preview: string)

  datatype Change = Change(
    kind: ChangeKind, path: string, previousPath: Option<string>,
    before: Option<Entry>, after: Option<Entry>, fields: seq<string>, note: Note)

  const DIGEST_PREVIEW := 12

  // ---------------------------------------------------------------- one file in both trees

  predicate ContentDiffers(a: Entry, b: Entry) {
    a.checksum != b.checksum || (a.size.Some? && b.size.Some? && a.size != b.size)
  }

  predicate Clash<T(==)>(a: Option<T>, b: Option<T>) {
    a.Some? && b.Some? && a != b
  }

  function MetadataDifferences(a: Entry, b: Entry): seq<string> {
    (if Clash(a.modifiedAt, b.modifiedAt) then ["modified_at"] else [])
    + (if Clash(a.contentType, b.contentType) then ["content_type"] else [])
    + (if Clash(a.version, b.version) then ["version"] else [])
    + (if Clash(a.etag, b.etag) then ["etag"] else [])
  }

  function Between(kind: ChangeKind, a: Entry, b: Entry, fields: seq<string>): Change {
    Change(kind, b.path, None, Some(a), Some(b), fields, NoNote)
  }

  /** `_compare`. */
  function Compare(a: Entry, b: Entry): seq<Change> {
    (if ContentDiffers(a, b) then [Between(Modified, a, b, [])]
     else if MetadataDifferences(a, b) != [] then
       [Between(MetadataChanged, a, b, MetadataDifferences(a, b))]
     else [])
    + (if Clash(a.mode, b.mode) then [Between(PermissionChanged, a, b, ["mode"])] else [])
  }

  // ---------------------------------------------------------------- files in one tree only

  /** What two files must share to be one file renamed. A file without a checksum shares it with none. */
  datatype Key = Key(checksum: string, size: Option<nat>, own: string)

  function ContentKey(e: Entry): Key {
    Key(e.checksum, e.size, if e.checksum != "" then "" else e.path)
  }

  /** The paths of `a` that `b` does not have, with the content `k`. */
  function OnlyIn(a: Tree, b: Tree, k: Key): set<string> {
    set p | p in a && p !in b && ContentKey(a[p]) == k
  }

  function NoteFor(k: Key, gone: nat, arrived: nat): Note {
    if gone > 0 && arrived > 0 then
      Ambiguous(gone, arrived, if |k.checksum| < DIGEST_PREVIEW then k.checksum else k.checksum[..DIGEST_PREVIEW])
    else NoNote
  }

  function RenameOf(a: Entry, b: Entry): Change {
    Change(Renamed, b.path, Some(a.path), Some(a), Some(b), [], NoNote)
  }

  function DeletionOf(a: Entry, note: Note): Change {
    Change(Deleted, a.path, None, Some(a), None, [], note)
  }

  function CreationOf(b: Entry, note: Note): Change {
    Change(Created, b.path, None, None, Some(b), [], note)
  }

  /** One file left and one file arrived with the content `k`. */
  predicate Pairs(b: Tree, c: Tree, k: Key) {
    |OnlyIn(b, c, k)| == 1 && |OnlyIn(c, b, k)| == 1
  }

  /** `ch` is one of the changes that turn `b` into `c`. */
  ghost predicate IsChange(b: Tree, c: Tree, ch: Change) {
    match ch.kind
    case Modified =>
      && ch.path in b && ch.path in c && ContentDiffers(b[ch.path], c[ch.path])
      && ch == Between(Modified, b[ch.path], c[ch.path], [])
    case MetadataChanged =>
      && ch.path in b && ch.path in c && !ContentDiffers(b[ch.path], c[ch.path])
      && MetadataDifferences(b[ch.path], c[ch.path]) != []
      && ch == Between(MetadataChanged, b[ch.path], c[ch.path], MetadataDifferences(b[ch.path], c[ch.path]))
    case PermissionChanged =>
      && ch.path in b && ch.path in c && Clash(b[ch.path].mode, c[ch.path].mode)
      && ch == Between(PermissionChanged, b[ch.path], c[ch.path], ["mode"])
    case Renamed =>
      && ch.path in c && ch.path !in b && ch.previousPath.Some?
      && ch.previousPath.value in b && ch.previousPath.value !in c
      && ContentKey(b[ch.previousPath.value]) == ContentKey(c[ch.path])
      && Pairs(b, c, ContentKey(c[ch.path]))
      && ch == RenameOf(b[ch.previousPath.value], c[ch.path])
    case Deleted =>
      && ch.path in b && ch.path !in c
      && var k := ContentKey(b[ch.path]);
      && !Pairs(b, c, k)
      && ch == DeletionOf(b[ch.path], NoteFor(k, |OnlyIn(b, c, k)|, |OnlyIn(c, b, k)|))
    case Created =>
      && ch.path in c && ch.path !in b
      && var k := ContentKey(c[ch.path]);
      && !Pairs(b, c, k)
      && ch == CreationOf(c[ch.path], NoteFor(k, |OnlyIn(b, c, k)|, |OnlyIn(c, b, k)|))
  }

  // ---------------------------------------------------------------- the order of the list

  function Rank(kind: ChangeKind): nat {
    match kind
    case Created => 0
    case Modified => 1
    case Deleted => 2
    case Renamed => 3
    case MetadataChanged => 4
    case PermissionChanged => 5
  }

  /** `_order`: by path, then by kind. */
  predicate Before(x: Change, y: Change) {
    Less(x.path, y.path) || (x.path == y.path && Rank(x.kind) < Rank(y.kind))
  }

  ghost predicate InOrder(s: seq<Change>) {
    forall i, j :: 0 <= i < j < |s| ==> Before(s[i], s[j])
  }

  /** The list of all changes, each once, in order. */
  ghost predicate AllChanges(b: Tree, c: Tree, s: seq<Change>) {
    InOrder(s) && forall ch :: ch in s <==> IsChange(b, c, ch)
  }

  lemma BeforeIsStrict(x: Change, y: Change)
    ensures !(Before(x, y) && Before(y, x)) && !Before(x, x)
  {
    LessTotal(x.path, y.path);
    LessTotal(x.path, x.path);
  }

  /** There is only one such list. */
  lemma {:induction false} OneList(a: seq<Change>, b: seq<Change>)
    requires InOrder(a) && InOrder(b) && forall ch :: ch in a <==> ch in b
    ensures a == b
  {
    hide Before;
    if a == [] {
      NothingIn(b);
    } else {
      assert a[0] in b && b != [] && b[0] in a;
      BeforeIsStrict(a[0], b[0]);
      assert a[0] == b[0];
      BeforeIsStrict(a[0], a[0]);
      forall ch ensures ch in a[1..] <==> ch in b[1..] {
        assert ch in a <==> ch == a[0] || ch in a[1..];
        assert ch in b <==> ch == b[0] || ch in b[1..];
        assert a[0] !in a[1..] && b[0] !in b[1..];
      }
      OneList(a[1..], b[1..]);
    }
  }

  // ---------------------------------------------------------------- what the list amounts to

  /** Nothing both entries recorded differs. */
  ghost predicate Alike(a: Entry, b: Entry) {
    && a.checksum == b.checksum && !Clash(a.size, b.size) && !Clash(a.mode, b.mode)
    && !Clash(a.modifiedAt, b.modifiedAt) && !Clash(a.contentType, b.contentType)
    && !Clash(a.version, b.version) && !Clash(a.etag, b.etag)
  }

  lemma NoDifferencesIff(a: Entry, b: Entry)
    ensures Alike(a, b) <==> !ContentDiffers(a, b) && MetadataDifferences(a, b) == [] && !Clash(a.mode, b.mode)
  {
  }

  /** A change does this to a tree. */
  function Replay(t: Tree, ch: Change): Tree {
    match ch.kind
    case Deleted => t - {ch.path}
    case Renamed =>
      if ch.previousPath.Some? && ch.after.Some? then (t - {ch.previousPath.value})[ch.path := ch.after.value] else t
    case _ => if ch.after.Some? then t[ch.path := ch.after.value] else t
  }

  function ReplayAll(t: Tree, s: seq<Change>): Tree {
    if s == [] then t else Replay(ReplayAll(t, s[..|s|-1]), s[|s|-1])
  }

  predicate Sets(ch: Change, p: string) {
    !ch.kind.Deleted? && ch.path == p
  }

  predicate Removes(ch: Change, p: string) {
    (ch.kind.Deleted? && ch.path == p) || (ch.kind.Renamed? && ch.previousPath == Some(p))
  }

  lemma {:induction false} ReplayEffect(b: Tree, c: Tree, s: seq<Change>, p: string)
    requires forall ch :: ch in s ==> IsChange(b, c, ch)
    requires IsTree(b) && IsTree(c)
    ensures p in c ==> (p in ReplayAll(b, s) <==> p in b || exists ch :: ch in s && Sets(ch, p))
    ensures p in c && p in ReplayAll(b, s) ==>
      ReplayAll(b, s)[p] == if exists ch :: ch in s && Sets(ch, p) then c[p] else b[p]
    ensures p !in c ==> (p in ReplayAll(b, s) <==> p in b && !exists ch :: ch in s && Removes(ch, p))
  {
    if s != [] {
      var init, last := s[..|s|-1], s[|s|-1];
      assert s == init + [last];
      ReplayEffect(b, c, init, p);
      assert IsChange(b, c, last);
      hide IsChange;
      ReplayOne(b, c, last, p, ReplayAll(b, init));
    }
  }

  lemma ReplayOne(b: Tree, c: Tree, ch: Change, p: string, t: Tree)
    requires IsChange(b, c, ch) && IsTree(b) && IsTree(c)
    ensures p in c && Sets(ch, p) ==> p in Replay(t, ch) && Replay(t, ch)[p] == c[p]
    ensures p in c && !Sets(ch, p) ==> (p in Replay(t, ch) <==> p in t) && (p in t ==> Replay(t, ch)[p] == t[p])
    ensures p !in c ==> (p in Replay(t, ch) <==> p in t && !Removes(ch, p))
  {
    hide Pairs, ContentDiffers, MetadataDifferences;
  }

  lemma OneElement(s: set<string>, x: string, y: string)
    requires |s| == 1 && x in s && y in s
    ensures x == y
  {
    var rest := s - {x};
    assert |rest| == 0;
    assert y == x || y in rest;
  }

  lemma SomeElement(s: set<string>) returns (x: string)
    requires |s| > 0
    ensures x in s
  {
    x :| x in s;
  }

  /** Exactly one change of the list removes a vanished path: its deletion, or its rename. */
  lemma VanishedOnce(b: Tree, c: Tree, s: seq<Change>, p: string)
    requires AllChanges(b, c, s) && IsTree(b) && IsTree(c) && p in b && p !in c
    ensures exists i :: 0 <= i < |s| && Removes(s[i], p) && forall j :: 0 <= j < |s| && Removes(s[j], p) ==> j == i
  {
    hide InOrder;
    var k := ContentKey(b[p]);
    var ch: Change;
    if Pairs(b, c, k) {
      var n := SomeElement(OnlyIn(c, b, k));
      ch := RenameOf(b[p], c[n]);
    } else {
      ch := DeletionOf(b[p], NoteFor(k, |OnlyIn(b, c, k)|, |OnlyIn(c, b, k)|));
    }
    assert IsChange(b, c, ch) && Removes(ch, p);
    var i :| 0 <= i < |s| && s[i] == ch;
    forall j | 0 <= j < |s| && Removes(s[j], p) ensures j == i {
      assert IsChange(b, c, s[j]);
      RemovesOnce(b, c, p, s[i], s[j]);
      OnePlace(s, i, j);
    }
  }

  lemma RemovesOnce(b: Tree, c: Tree, p: string, x: Change, y: Change)
    requires IsTree(b) && IsTree(c) && p in b && p !in c
    requires IsChange(b, c, x) && IsChange(b, c, y) && Removes(x, p) && Removes(y, p)
    ensures x == y
  {
    if x.kind.Renamed? && y.kind.Renamed? {
      OneElement(OnlyIn(c, b, ContentKey(b[p])), x.path, y.path);
    }
  }

  lemma OnePlace(s: seq<Change>, i: nat, j: nat)
    requires InOrder(s) && i < |s| && j < |s| && s[i] == s[j]
    ensures i == j
  {
    hide Before;
    BeforeIsStrict(s[i], s[j]);
  }

  /** Exactly one change of the list brings a new path: its creation, or its rename. */
  lemma ArrivedOnce(b: Tree, c: Tree, s: seq<Change>, p: string)
    requires AllChanges(b, c, s) && IsTree(b) && IsTree(c) && p in c && p !in b
    ensures exists i :: 0 <= i < |s| && Sets(s[i], p) && forall j :: 0 <= j < |s| && Sets(s[j], p) ==> j == i
  {
    hide InOrder;
    var k := ContentKey(c[p]);
    var ch: Change;
    if Pairs(b, c, k) {
      var g := SomeElement(OnlyIn(b, c, k));
      ch := RenameOf(b[g], c[p]);
    } else {
      ch := CreationOf(c[p], NoteFor(k, |OnlyIn(b, c, k)|, |OnlyIn(c, b, k)|));
    }
    assert IsChange(b, c, ch) && Sets(ch, p);
    var i :| 0 <= i < |s| && s[i] == ch;
    forall j | 0 <= j < |s| && Sets(s[j], p) ensures j == i {
      assert IsChange(b, c, s[j]);
      SetsOnce(b, c, p, s[i], s[j]);
      OnePlace(s, i, j);
    }
  }

  lemma SetsOnce(b: Tree, c: Tree, p: string, x: Change, y: Change)
    requires IsTree(b) && IsTree(c) && p in c && p !in b
    requires IsChange(b, c, x) && IsChange(b, c, y) && Sets(x, p) && Sets(y, p)
    ensures x == y
  {
    if x.kind.Renamed? && y.kind.Renamed? {
      OneElement(OnlyIn(b, c, ContentKey(c[p])), x.previousPath.value, y.previousPath.value);
    }
  }

  /** Replaying the list on the baseline gives the current tree, up to what one side did not record. */
  lemma ReplayGivesCurrent(b: Tree, c: Tree, s: seq<Change>)
    requires AllChanges(b, c, s) && IsTree(b) && IsTree(c)
    ensures ReplayAll(b, s).Keys == c.Keys
    ensures forall p :: p in c ==> p in ReplayAll(b, s) && Alike(ReplayAll(b, s)[p], c[p])
  {
    hide InOrder, Alike;
    forall p
      ensures p in ReplayAll(b, s) <==> p in c
      ensures p in c ==> Alike(ReplayAll(b, s)[p], c[p])
    {
      ReplayEffect(b, c, s, p);
      hide ReplayAll;
      if p in c && p !in b { ArrivedOnce(b, c, s, p); }
      if p in b && p !in c { VanishedOnce(b, c, s, p); }
      if p in c { UntouchedIsAlike(b, c, s, p); }
    }
  }

  lemma UntouchedIsAlike(b: Tree, c: Tree, s: seq<Change>, p: string)
    requires AllChanges(b, c, s) && IsTree(b) && IsTree(c) && p in c
    ensures Alike(c[p], c[p])
    ensures p in b && !(exists ch :: ch in s && Sets(ch, p)) ==> Alike(b[p], c[p])
  {
    hide InOrder;
    if p in b && !exists ch :: ch in s && Sets(ch, p) {
      var m := Between(Modified, b[p], c[p], []);
      var n := Between(MetadataChanged, b[p], c[p], MetadataDifferences(b[p], c[p]));
      var o := Between(PermissionChanged, b[p], c[p], ["mode"]);
      assert Sets(m, p) && Sets(n, p) && Sets(o, p);
      assert !IsChange(b, c, m) && !IsChange(b, c, n) && !IsChange(b, c, o);
    }
  }

  /** A rename is reported exactly if one vanished and one new file, and no others, share a checksum
      that is not empty and the size. */
  lemma RenameIff(b: Tree, c: Tree, s: seq<Change>, g: string, n: string)
    requires AllChanges(b, c, s) && IsTree(b) && IsTree(c)
    ensures (exists ch :: ch in s && ch.kind.Renamed? && ch.path == n && ch.previousPath == Some(g)) <==>
      && g in b && g !in c && n in c && n !in b
      && b[g].checksum == c[n].checksum != "" && b[g].size == c[n].size
      && (forall x :: x in b && x !in c && b[x].checksum == b[g].checksum && b[x].size == b[g].size ==> x == g)
      && (forall x :: x in c && x !in b && c[x].checksum == c[n].checksum && c[x].size == c[n].size ==> x == n)
  {
    hide InOrder;
    if ch :| ch in s && ch.kind.Renamed? && ch.path == n && ch.previousPath == Some(g) {
      assert IsChange(b, c, ch);
      var k := ContentKey(c[n]);
      forall x | x in b && x !in c && b[x].checksum == b[g].checksum && b[x].size == b[g].size ensures x == g {
        OneElement(OnlyIn(b, c, k), x, g);
      }
      forall x | x in c && x !in b && c[x].checksum == c[n].checksum && c[x].size == c[n].size ensures x == n {
        OneElement(OnlyIn(c, b, k), x, n);
      }
    }
    if && g in b && g !in c && n in c && n !in b
       && b[g].checksum == c[n].checksum != "" && b[g].size == c[n].size
       && (forall x :: x in b && x !in c && b[x].checksum == b[g].checksum && b[x].size == b[g].size ==> x == g)
       && (forall x :: x in c && x !in b && c[x].checksum == c[n].checksum && c[x].size == c[n].size ==> x == n)
    {
      var k := ContentKey(c[n]);
      assert OnlyIn(b, c, k) == {g} && OnlyIn(c, b, k) == {n};
      assert IsChange(b, c, RenameOf(b[g], c[n]));
    }
  }

  /** There is nothing to report exactly if the trees have the same paths and like entries. */
  lemma NothingIff(b: Tree, c: Tree, s: seq<Change>)
    requires AllChanges(b, c, s) && IsTree(b) && IsTree(c)
    ensures s == [] <==> b.Keys == c.Keys && forall p :: p in b && p in c ==> Alike(b[p], c[p])
  {
    hide InOrder, Alike;
    if s == [] {
      ReplayGivesCurrent(b, c, s);
    } else if b.Keys == c.Keys {
      assert s[0] in s && IsChange(b, c, s[0]);
      var p := s[0].path;
      NoDifferencesIff(b[p], c[p]);
    }
  }
}

/** `detect_changes`. */
module Detector {
  import opened Wrappers
  import opened PathOrder
  import opened Snapshots
  import opened Changes

  /** Which step of the detection yields a change: the comparison of a path, or a group of contents. */
  datatype Owner = Both(path: string) | Group(key: Key) | Nobody

  ghost function OwnerOf(b: Tree, c: Tree, path: string, kind: ChangeKind): Owner {
    if kind.Modified? || kind.MetadataChanged? || kind.PermissionChanged? then Both(path)
    else if kind.Deleted? then (if path in b then Group(ContentKey(b[path])) else Nobody)
    else if path in c then Group(ContentKey(c[path])) else Nobody
  }

  ghost predicate Unique(s: seq<Change>) {
    forall i, j :: 0 <= i < j < |s| ==> s[i].path != s[j].path || s[i].kind != s[j].kind
  }

  /** `s` holds, each once, the changes that the steps `done` yield. */
  ghost predicate Collected(b: Tree, c: Tree, s: seq<Change>, done: set<Owner>) {
    && Unique(s)
    && forall ch :: ch in s <==> IsChange(b, c, ch) && OwnerOf(b, c, ch.path, ch.kind) in done
  }

  lemma CollectMore(b: Tree, c: Tree, s: seq<Change>, done: set<Owner>, block: seq<Change>, o: Owner)
    requires Collected(b, c, s, done) && Collected(b, c, block, {o}) && o !in done
    ensures Collected(b, c, s + block, done + {o})
  {
    hide IsChange, OwnerOf;
    forall i, j | 0 <= i < |s| && 0 <= j < |block|
      ensures s[i].path != block[j].path || s[i].kind != block[j].kind
    {
      assert s[i] in s && block[j] in block;
      assert OwnerOf(b, c, s[i].path, s[i].kind) in done && OwnerOf(b, c, block[j].path, block[j].kind) in {o};
    }
  }

  lemma CompareIsBlock(b: Tree, c: Tree, p: string)
    requires p in b && p in c && IsTree(b) && IsTree(c)
    ensures Collected(b, c, Compare(b[p], c[p]), {Both(p)})
  {
    hide ContentDiffers, MetadataDifferences, Pairs;
  }

  // ---------------------------------------------------------------- groups

  /** `s` lists, each once, the entries of `a` at the paths `paths`. */
  ghost predicate Lists(s: seq<Entry>, a: Tree, paths: set<string>) {
    && DistinctPaths(s) && |s| == |paths|
    && (forall e :: e in s ==> e.path in paths)
    && (forall p :: p in paths ==> p in a && a[p].path == p && a[p] in s)
  }

  /** `_pair`. */
  function Pair(gone: seq<Entry>, arrived: seq<Entry>, key: Key): seq<Change> {
    if |gone| == 1 && |arrived| == 1 then [RenameOf(gone[0], arrived[0])]
    else
      var note := NoteFor(key, |gone|, |arrived|);
      Deletions(gone, note) + Creations(arrived, note)
  }

  function Deletions(gone: seq<Entry>, note: Note): (s: seq<Change>)
    ensures |s| == |gone| && forall i :: 0 <= i < |s| ==> s[i] == DeletionOf(gone[i], note)
  {
    seq(|gone|, i requires 0 <= i < |gone| => DeletionOf(gone[i], note))
  }

  function Creations(arrived: seq<Entry>, note: Note): (s: seq<Change>)
    ensures |s| == |arrived| && forall i :: 0 <= i < |s| ==> s[i] == CreationOf(arrived[i], note)
  {
    seq(|arrived|, i requires 0 <= i < |arrived| => CreationOf(arrived[i], note))
  }

  lemma {:induction false} PairIsBlock(b: Tree, c: Tree, k: Key, gone: seq<Entry>, arrived: seq<Entry>)
    requires IsTree(b) && IsTree(c)
    requires Lists(gone, b, OnlyIn(b, c, k)) && Lists(arrived, c, OnlyIn(c, b, k))
    ensures Collected(b, c, Pair(gone, arrived, k), {Group(k)})
  {
    if |gone| == 1 && |arrived| == 1 {
      RenameIsBlock(b, c, k, gone, arrived);
    } else {
      HalvesAreBlock(b, c, k, gone, arrived);
    }
  }

  lemma RenameIsBlock(b: Tree, c: Tree, k: Key, gone: seq<Entry>, arrived: seq<Entry>)
    requires IsTree(b) && IsTree(c) && |gone| == |arrived| == 1
    requires Lists(gone, b, OnlyIn(b, c, k)) && Lists(arrived, c, OnlyIn(c, b, k))
    ensures Collected(b, c, Pair(gone, arrived, k), {Group(k)})
  {
    var g, n := gone[0], arrived[0];
    assert g in gone && n in arrived;
    assert b[g.path] == g && c[n.path] == n;
    forall ch ensures ch in [RenameOf(g, n)] <==>
      IsChange(b, c, ch) && OwnerOf(b, c, ch.path, ch.kind) == Group(k)
    {
      if IsChange(b, c, ch) && OwnerOf(b, c, ch.path, ch.kind) == Group(k) {
        assert ch.kind.Renamed?;
        OneElement(OnlyIn(c, b, k), ch.path, n.path);
        OneElement(OnlyIn(b, c, k), ch.previousPath.value, g.path);
      }
    }
  }

  lemma DeletionsOfGroup(b: Tree, c: Tree, k: Key, gone: seq<Entry>, arrivedCount: nat)
    requires IsTree(b) && IsTree(c) && Lists(gone, b, OnlyIn(b, c, k))
    requires !Pairs(b, c, k) && arrivedCount == |OnlyIn(c, b, k)|
    ensures Unique(Deletions(gone, NoteFor(k, |gone|, arrivedCount)))
    ensures forall ch :: ch in Deletions(gone, NoteFor(k, |gone|, arrivedCount)) <==>
      ch.kind.Deleted? && IsChange(b, c, ch) && OwnerOf(b, c, ch.path, ch.kind) == Group(k)
  {
    hide NoteFor;
    var ds := Deletions(gone, NoteFor(k, |gone|, arrivedCount));
    forall ch
      ensures ch in ds <==> ch.kind.Deleted? && IsChange(b, c, ch) && OwnerOf(b, c, ch.path, ch.kind) == Group(k)
    {
      if ch in ds {
        var i :| 0 <= i < |ds| && ds[i] == ch;
        assert gone[i] in gone && b[gone[i].path] == gone[i];
      }
      if ch.kind.Deleted? && IsChange(b, c, ch) && OwnerOf(b, c, ch.path, ch.kind) == Group(k) {
        assert ch.path in OnlyIn(b, c, k) && b[ch.path] in gone;
        var i :| 0 <= i < |gone| && gone[i] == b[ch.path];
        assert ds[i] == ch;
      }
    }
  }

  lemma CreationsOfGroup(b: Tree, c: Tree, k: Key, arrived: seq<Entry>, goneCount: nat)
    requires IsTree(b) && IsTree(c) && Lists(arrived, c, OnlyIn(c, b, k))
    requires !Pairs(b, c, k) && goneCount == |OnlyIn(b, c, k)|
    ensures Unique(Creations(arrived, NoteFor(k, goneCount, |arrived|)))
    ensures forall ch :: ch in Creations(arrived, NoteFor(k, goneCount, |arrived|)) <==>
      ch.kind.Created? && IsChange(b, c, ch) && OwnerOf(b, c, ch.path, ch.kind) == Group(k)
  {
    hide NoteFor;
    var cs := Creations(arrived, NoteFor(k, goneCount, |arrived|));
    forall ch
      ensures ch in cs <==> ch.kind.Created? && IsChange(b, c, ch) && OwnerOf(b, c, ch.path, ch.kind) == Group(k)
    {
      if ch in cs {
        var i :| 0 <= i < |cs| && cs[i] == ch;
        assert arrived[i] in arrived && c[arrived[i].path] == arrived[i];
      }
      if ch.kind.Created? && IsChange(b, c, ch) && OwnerOf(b, c, ch.path, ch.kind) == Group(k) {
        assert ch.path in OnlyIn(c, b, k) && c[ch.path] in arrived;
        var i :| 0 <= i < |arrived| && arrived[i] == c[ch.path];
        assert cs[i] == ch;
      }
    }
  }

  lemma {:induction false} HalvesAreBlock(b: Tree, c: Tree, k: Key, gone: seq<Entry>, arrived: seq<Entry>)
    requires IsTree(b) && IsTree(c) && !(|gone| == 1 && |arrived| == 1)
    requires Lists(gone, b, OnlyIn(b, c, k)) && Lists(arrived, c, OnlyIn(c, b, k))
    ensures Collected(b, c, Pair(gone, arrived, k), {Group(k)})
  {
    hide NoteFor, IsChange, OwnerOf, OnlyIn, Lists, Unique;
    ListSizes(gone, b, OnlyIn(b, c, k));
    ListSizes(arrived, c, OnlyIn(c, b, k));
    DeletionsOfGroup(b, c, k, gone, |arrived|);
    CreationsOfGroup(b, c, k, arrived, |gone|);
    var note := NoteFor(k, |gone|, |arrived|);
    var ds, cs := Deletions(gone, note), Creations(arrived, note);
    assert forall ch :: ch in ds + cs <==> ch in ds || ch in cs;
    forall ch | IsChange(b, c, ch) && OwnerOf(b, c, ch.path, ch.kind) == Group(k)
      ensures ch.kind.Deleted? || ch.kind.Created?
    {
      NoRenameInGroup(b, c, k, ch);
    }
    UniqueHalves(ds, cs);
  }

  lemma ListSizes(s: seq<Entry>, t: Tree, paths: set<string>)
    requires Lists(s, t, paths)
    ensures |s| == |paths|
  {
  }

  lemma UniqueHalves(ds: seq<Change>, cs: seq<Change>)
    requires Unique(ds) && Unique(cs)
    requires forall ch :: ch in ds ==> ch.kind.Deleted?
    requires forall ch :: ch in cs ==> ch.kind.Created?
    ensures Unique(ds + cs)
  {
    forall i, j | 0 <= i < |ds| && 0 <= j < |cs| ensures ds[i].kind != cs[j].kind {
      assert ds[i] in ds && cs[j] in cs;
    }
  }

  lemma NoRenameInGroup(b: Tree, c: Tree, k: Key, ch: Change)
    requires IsChange(b, c, ch) && OwnerOf(b, c, ch.path, ch.kind) == Group(k) && !Pairs(b, c, k)
    ensures ch.kind.Deleted? || ch.kind.Created?
  {
  }

  // ---------------------------------------------------------------- grouping by content

  function GroupAt(groups: map<Key, seq<Entry>>, k: Key): seq<Entry> {
    if k in groups then groups[k] else []
  }

  /** `_by_content`, of the entries of `s` whose paths `other` does not have. */
  method ByContent(s: seq<Entry>, other: Tree) returns (groups: map<Key, seq<Entry>>)
    requires Ascending(s)
    ensures forall k :: Lists(GroupAt(groups, k), Index(s), OnlyIn(Index(s), other, k))
    ensures forall k :: k in groups ==> groups[k] != []
  {
    hide Lists, OnlyIn, Index, Ascending;
    groups := map[];
    NoGroups(s, other);
    for i := 0 to |s|
      invariant forall k :: Lists(GroupAt(groups, k), Index(s[..i]), OnlyIn(Index(s[..i]), other, k))
      invariant forall k :: k in groups ==> groups[k] != []
    {
      var e := s[i];
      ghost var before := groups;
      if e.path !in other {
        groups := groups[ContentKey(e) := GroupAt(groups, ContentKey(e)) + [e]];
      }
      forall k ensures Lists(GroupAt(groups, k), Index(s[..i+1]), OnlyIn(Index(s[..i+1]), other, k)) {
        GroupOne(s, i, other, GroupAt(before, k), k);
        assert GroupAt(groups, k) ==
          if e.path !in other && k == ContentKey(e) then GroupAt(before, k) + [e] else GroupAt(before, k);
      }
    }
    assert s[..|s|] == s;
  }

  lemma NoGroups(s: seq<Entry>, other: Tree)
    ensures forall k :: Lists([], Index(s[..0]), OnlyIn(Index(s[..0]), other, k))
  {
  }

  lemma GroupOne(s: seq<Entry>, i: nat, other: Tree, group: seq<Entry>, k: Key)
    requires Ascending(s) && i < |s| && Lists(group, Index(s[..i]), OnlyIn(Index(s[..i]), other, k))
    ensures Lists(if s[i].path !in other && k == ContentKey(s[i]) then group + [s[i]] else group,
                  Index(s[..i+1]), OnlyIn(Index(s[..i+1]), other, k))
  {
    hide Index, Ascending, Lists;
    var t, e := Index(s[..i]), s[i];
    NewPath(s, i);
    ListsMore(group, t, e, OnlyIn(t, other, k));
    if e.path !in other && k == ContentKey(e) {
      assert OnlyIn(t[e.path := e], other, k) == OnlyIn(t, other, k) + {e.path};
    } else {
      assert OnlyIn(t[e.path := e], other, k) == OnlyIn(t, other, k);
    }
  }

  lemma ListsMore(s: seq<Entry>, t: Tree, e: Entry, paths: set<string>)
    requires Lists(s, t, paths) && e.path !in t
    ensures Lists(s, t[e.path := e], paths)
    ensures Lists(s + [e], t[e.path := e], paths + {e.path})
  {
    assert forall x :: x in s ==> x.path in paths && x.path in t;
    assert forall x :: x in s + [e] <==> x in s || x == e;
  }

  lemma NewPath(s: seq<Entry>, i: nat)
    requires Ascending(s) && i < |s|
    ensures s[i].path !in Index(s[..i]) && Index(s[..i+1]) == Index(s[..i])[s[i].path := s[i]]
  {
    assert s[..i+1][..i] == s[..i];
    IndexIsTree(s[..i]);
    forall j | 0 <= j < i ensures s[j].path != s[i].path {
      LessTotal(s[j].path, s[i].path);
    }
    assert forall x :: x in s[..i] ==> x.path != s[i].path;
  }

  // ---------------------------------------------------------------- sorting

  function InsertChange(ch: Change, s: seq<Change>): seq<Change> {
    if s == [] || Before(ch, s[0]) then [ch] + s else [s[0]] + InsertChange(ch, s[1..])
  }

  /** `sorted(changes, key=_order)`. */
  function SortChanges(s: seq<Change>): seq<Change> {
    if s == [] then [] else InsertChange(s[0], SortChanges(s[1..]))
  }

  lemma BeforeTransitive(x: Change, y: Change, z: Change)
    requires Before(x, y) && Before(y, z)
    ensures Before(x, z)
  {
    if Less(x.path, y.path) && Less(y.path, z.path) { LessTransitive(x.path, y.path, z.path); }
  }

  lemma BeforeTotal(x: Change, y: Change)
    requires x.path != y.path || x.kind != y.kind
    ensures Before(x, y) || Before(y, x)
  {
    LessTotal(x.path, y.path);
  }

  lemma {:induction false} InsertKeepsOrder(ch: Change, s: seq<Change>)
    requires InOrder(s) && forall x :: x in s ==> x.path != ch.path || x.kind != ch.kind
    ensures InOrder(InsertChange(ch, s)) && forall x :: x in InsertChange(ch, s) <==> x == ch || x in s
  {
    hide Before;
    if s == [] {
    } else if Before(ch, s[0]) {
      forall i | 0 <= i < |s| ensures Before(ch, s[i]) {
        if i > 0 { BeforeTransitive(ch, s[0], s[i]); }
      }
    } else {
      assert s == [s[0]] + s[1..];
      InsertKeepsOrder(ch, s[1..]);
      var rest := InsertChange(ch, s[1..]);
      BeforeTotal(s[0], ch);
      forall i | 0 <= i < |rest| ensures Before(s[0], rest[i]) {
        assert rest[i] in rest;
        if rest[i] != ch {
          var k :| 0 <= k < |s[1..]| && s[1..][k] == rest[i];
          assert Before(s[0], s[k+1]);
        }
      }
    }
  }

  lemma {:induction false} SortOrders(s: seq<Change>)
    requires Unique(s)
    ensures InOrder(SortChanges(s)) && forall x :: x in SortChanges(s) <==> x in s
  {
    if s != [] {
      hide InsertChange;
      SortOrders(s[1..]);
      assert s == [s[0]] + s[1..];
      forall x | x in SortChanges(s[1..]) ensures x.path != s[0].path || x.kind != s[0].kind {
        var k :| 0 <= k < |s[1..]| && s[1..][k] == x;
        assert s[k+1] == x;
      }
      InsertKeepsOrder(s[0], SortChanges(s[1..]));
    }
  }

  // ---------------------------------------------------------------- the detection

  /** The loop over the paths that both snapshots have. */
  method CompareCommon(s: seq<Entry>, b: Tree, c: Tree) returns (changes: seq<Change>, ghost done: set<Owner>)
    requires Ascending(s) && b == Index(s) && IsTree(c)
    ensures Collected(b, c, changes, done)
    ensures forall p :: Both(p) in done <==> p in b && p in c
    ensures forall k :: Group(k) !in done
  {
    hide Collected, Compare;
    changes, done := [], {};
    NothingCollected(b, c);
    IndexIsTree(s);
    for i := 0 to |s|
      invariant Collected(b, c, changes, done)
      invariant forall p :: Both(p) in done <==> p in Index(s[..i]) && p in c
      invariant forall k :: Group(k) !in done
    {
      var e := s[i];
      NewPath(s, i);
      AscendingFinds(s, i);
      if e.path in c {
        CompareIsBlock(b, c, e.path);
        CollectMore(b, c, changes, done, Compare(e, c[e.path]), Both(e.path));
        changes := changes + Compare(e, c[e.path]);
        done := done + {Both(e.path)};
      }
    }
    assert s[..|s|] == s;
  }

  lemma NothingCollected(b: Tree, c: Tree)
    ensures Collected(b, c, [], {})
  {
  }

  /** The loops over the groups: what left against what arrived, then what arrived alone. */
  method PairGroups(b: Tree, c: Tree, gone: map<Key, seq<Entry>>, arrived: map<Key, seq<Entry>>,
                    changes0: seq<Change>, ghost done0: set<Owner>)
    returns (changes: seq<Change>, ghost done: set<Owner>)
    requires IsTree(b) && IsTree(c) && Collected(b, c, changes0, done0)
    requires forall k :: Lists(GroupAt(gone, k), b, OnlyIn(b, c, k))
    requires forall k :: Lists(GroupAt(arrived, k), c, OnlyIn(c, b, k))
    requires forall k :: Group(k) !in done0
    ensures Collected(b, c, changes, done) && done >= done0
    ensures forall k :: Group(k) in done <==> k in gone || k in arrived
  {
    hide Collected, Lists, OnlyIn, Pair;
    changes, done := changes0, done0;
    var left, rest := gone.Keys, arrived.Keys;
    while left != {}
      invariant Collected(b, c, changes, done) && done >= done0
      invariant left <= gone.Keys && rest == arrived.Keys - (gone.Keys - left)
      invariant forall k :: Group(k) in done <==> k in gone && k !in left
    {
      var k :| k in left;
      PairIsBlock(b, c, k, GroupAt(gone, k), GroupAt(arrived, k));
      CollectMore(b, c, changes, done, Pair(GroupAt(gone, k), GroupAt(arrived, k), k), Group(k));
      changes := changes + Pair(GroupAt(gone, k), GroupAt(arrived, k), k);
      done := done + {Group(k)};
      left, rest := left - {k}, rest - {k};
    }
    while rest != {}
      invariant Collected(b, c, changes, done) && done >= done0
      invariant rest <= arrived.Keys && rest !! gone.Keys
      invariant forall k :: Group(k) in done <==> k in gone || (k in arrived && k !in rest)
    {
      var k :| k in rest;
      assert GroupAt(gone, k) == [];
      PairIsBlock(b, c, k, [], GroupAt(arrived, k));
      CollectMore(b, c, changes, done, Pair([], GroupAt(arrived, k), k), Group(k));
      changes := changes + Pair([], GroupAt(arrived, k), k);
      done := done + {Group(k)};
      rest := rest - {k};
    }
  }

  /** Every change has been collected once every path and every group has had its turn. */
  lemma AllCollected(b: Tree, c: Tree, gone: map<Key, seq<Entry>>, arrived: map<Key, seq<Entry>>,
                     s: seq<Change>, done: set<Owner>)
    requires IsTree(b) && IsTree(c) && Collected(b, c, s, done)
    requires forall k :: Lists(GroupAt(gone, k), b, OnlyIn(b, c, k))
    requires forall k :: Lists(GroupAt(arrived, k), c, OnlyIn(c, b, k))
    requires forall p :: p in b && p in c ==> Both(p) in done
    requires forall k :: k in gone || k in arrived ==> Group(k) in done
    ensures forall ch :: ch in s <==> IsChange(b, c, ch)
  {
    forall ch | IsChange(b, c, ch) ensures OwnerOf(b, c, ch.path, ch.kind) in done {
      if ch.kind.Deleted? {
        var k := ContentKey(b[ch.path]);
        assert ch.path in OnlyIn(b, c, k) && Lists(GroupAt(gone, k), b, OnlyIn(b, c, k));
      } else if ch.kind.Created? || ch.kind.Renamed? {
        var k := ContentKey(c[ch.path]);
        assert ch.path in OnlyIn(c, b, k) && Lists(GroupAt(arrived, k), c, OnlyIn(c, b, k));
      }
    }
  }

  /** `detect_changes`: `None` when the snapshots were hashed with different algorithms. */
  method DetectChanges(before: seq<Entry>, after: seq<Entry>, algorithm: string, currentAlgorithm: string)
    returns (r: Option<seq<Change>>)
    requires Ascending(before) && Ascending(after)
    ensures r.None? <==> algorithm != currentAlgorithm
    ensures r.Some? ==> AllChanges(Index(before), Index(after), r.value)
  {
    hide Collected, Lists, OnlyIn, Index, Ascending, InOrder, Unique, IsChange;
    if algorithm != currentAlgorithm {
      return None;
    }
    var b, c := Index(before), Index(after);
    IndexIsTree(before);
    IndexIsTree(after);
    var changes, gone, arrived;
    ghost var done;
    changes, done := CompareCommon(before, b, c);
    gone := ByContent(before, c);
    arrived := ByContent(after, b);
    ghost var common := done;
    changes, done := PairGroups(b, c, gone, arrived, changes, done);
    AllCollected(b, c, gone, arrived, changes, done);
    CollectedIsUnique(b, c, changes, done);
    SortOrders(changes);
    return Some(SortChanges(changes));
  }

  lemma CollectedIsUnique(b: Tree, c: Tree, s: seq<Change>, done: set<Owner>)
    requires Collected(b, c, s, done)
    ensures Unique(s)
  {
  }
}
