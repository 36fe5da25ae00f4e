/** What each change in the list says, kind by kind and field by field. */
module ChangeFacts {
  import opened Wrappers
  import opened PathOrder
  import opened Snapshots
  import opened Changes

  ghost predicate Listed(s: seq<Change>, kind: ChangeKind, p: string) {
    exists i :: 0 <= i < |s| && s[i].kind == kind && s[i].path == p
  }

  /** Both sides recorded it, and not the same. */
  predicate Differ<T(==)>(a: Option<T>, b: Option<T>) {
    a.Some? && b.Some? && a.value != b.value
  }

  predicate Modifies(a: Entry, b: Entry) {
    a.checksum != b.checksum || Differ(a.size, b.size)
  }

  predicate Redescribes(a: Entry, b: Entry) {
    Differ(a.modifiedAt, b.modifiedAt) || Differ(a.contentType, b.contentType) || Differ(a.version, b.version)
    || Differ(a.etag, b.etag)
  }

  lemma ListedIff(b: Tree, c: Tree, s: seq<Change>, kind: ChangeKind, p: string)
    requires AllChanges(b, c, s)
    ensures Listed(s, kind, p) <==> exists ch :: IsChange(b, c, ch) && ch.kind == kind && ch.path == p
  {
    hide InOrder, IsChange;
    if i :| 0 <= i < |s| && s[i].kind == kind && s[i].path == p { assert s[i] in s; }
    if ch :| IsChange(b, c, ch) && ch.kind == kind && ch.path == p {
      assert ch in s;
      var i :| 0 <= i < |s| && s[i] == ch;
    }
  }

  // ---------------------------------------------------------------- files in both trees

  lemma FactsOf(a: Entry, b: Entry)
    ensures ContentDiffers(a, b) <==> Modifies(a, b)
    ensures MetadataDifferences(a, b) != [] <==> Redescribes(a, b)
    ensures Clash(a.mode, b.mode) <==> Differ(a.mode, b.mode)
  {
  }

  /** A file of both trees is reported as modified exactly if the checksums differ or both sizes are known and
      do; as of changed metadata exactly if it is not modified and one of four facts is known on both sides and
      differs; and as of changed permissions exactly if the modes do so. */
  lemma CommonFileIff(b: Tree, c: Tree, s: seq<Change>, p: string)
    requires AllChanges(b, c, s) && IsTree(b) && IsTree(c)
    ensures Listed(s, Modified, p) <==> p in b && p in c && Modifies(b[p], c[p])
    ensures Listed(s, MetadataChanged, p) <==> p in b && p in c && !Modifies(b[p], c[p]) && Redescribes(b[p], c[p])
    ensures Listed(s, PermissionChanged, p) <==> p in b && p in c && Differ(b[p].mode, c[p].mode)
  {
    hide AllChanges, Listed, ContentDiffers, MetadataDifferences, Clash, Modifies, Redescribes, Differ;
    ListedIff(b, c, s, Modified, p);
    ListedIff(b, c, s, MetadataChanged, p);
    ListedIff(b, c, s, PermissionChanged, p);
    if p in b && p in c {
      FactsOf(b[p], c[p]);
      var fields := MetadataDifferences(b[p], c[p]);
      var m, n := Between(Modified, b[p], c[p], []), Between(MetadataChanged, b[p], c[p], fields);
      var o := Between(PermissionChanged, b[p], c[p], ["mode"]);
      assert IsChange(b, c, m) <==> Modifies(b[p], c[p]);
      assert IsChange(b, c, n) <==> !Modifies(b[p], c[p]) && Redescribes(b[p], c[p]);
      assert IsChange(b, c, o) <==> Differ(b[p].mode, c[p].mode);
    }
  }

  /** Such a change carries both entries, and names the facts that differ in a fixed order. */
  lemma CommonChangeSays(b: Tree, c: Tree, s: seq<Change>, ch: Change)
    requires AllChanges(b, c, s) && ch in s
    requires ch.kind.Modified? || ch.kind.MetadataChanged? || ch.kind.PermissionChanged?
    ensures ch.path in b && ch.path in c && ch.previousPath == None && ch.note == NoNote
    ensures ch.before == Some(b[ch.path]) && ch.after == Some(c[ch.path])
    ensures ch.kind.Modified? ==> ch.fields == []
    ensures ch.kind.PermissionChanged? ==> ch.fields == ["mode"]
    ensures ch.kind.MetadataChanged? ==>
      var x, y := b[ch.path], c[ch.path];
      ch.fields == (if Differ(x.modifiedAt, y.modifiedAt) then ["modified_at"] else [])
                   + (if Differ(x.contentType, y.contentType) then ["content_type"] else [])
                   + (if Differ(x.version, y.version) then ["version"] else [])
                   + (if Differ(x.etag, y.etag) then ["etag"] else [])
  {
    hide InOrder;
    assert IsChange(b, c, ch);
  }

  // ---------------------------------------------------------------- files in one tree only

  /** The files of `a` that are not in `b`, with the checksum and size of `e`, if it has a checksum. */
  function SameContent(a: Tree, b: Tree, e: Entry): set<string> {
    set p | p in a && p !in b && e.checksum != "" && a[p].checksum == e.checksum && a[p].size == e.size
  }

  /** One file left and one arrived, and no others, with this content. */
  ghost predicate MovedTo(b: Tree, c: Tree, g: string, n: string) {
    && g in b && g !in c && n in c && n !in b
    && SameContent(b, c, b[g]) == {g} && SameContent(c, b, b[g]) == {n}
  }

  lemma ContentOf(b: Tree, c: Tree, g: string)
    requires g in b && g !in c && IsTree(b) && IsTree(c)
    ensures var k := ContentKey(b[g]);
      && OnlyIn(c, b, k) == SameContent(c, b, b[g])
      && (if b[g].checksum != "" then OnlyIn(b, c, k) == SameContent(b, c, b[g]) else OnlyIn(b, c, k) == {g})
  {
  }

  lemma One(s: set<string>, x: string)
    requires x in s
    ensures |s| == 1 <==> s == {x}
  {
    if |s| == 1 {
      forall y | y in s ensures y == x { OneElement(s, x, y); }
    }
  }

  lemma PairsIff(b: Tree, c: Tree, g: string)
    requires g in b && g !in c && IsTree(b) && IsTree(c)
    ensures Pairs(b, c, ContentKey(b[g])) <==> exists n :: MovedTo(b, c, g, n)
  {
    hide SameContent;
    var k := ContentKey(b[g]);
    ContentOf(b, c, g);
    Members(b, c, g);
    One(OnlyIn(b, c, k), g);
    if Pairs(b, c, k) {
      var n := SomeElement(OnlyIn(c, b, k));
      One(OnlyIn(c, b, k), n);
      assert MovedTo(b, c, g, n);
    }
  }

  lemma Members(b: Tree, c: Tree, g: string)
    requires g in b && g !in c
    ensures forall n :: n in SameContent(c, b, b[g]) ==> n in c && n !in b && b[g].checksum != ""
    ensures g in OnlyIn(b, c, ContentKey(b[g]))
  {
  }

  /** A vanished file is reported as deleted exactly if it did not move, with its entry; and if files of its
      content arrived all the same, with a note of how many left and arrived and the first digits of it. */
  lemma VanishedFileIff(b: Tree, c: Tree, s: seq<Change>, p: string)
    requires AllChanges(b, c, s) && IsTree(b) && IsTree(c)
    ensures Listed(s, Deleted, p) <==> p in b && p !in c && !exists n :: MovedTo(b, c, p, n)
    ensures forall ch :: ch in s && ch.kind.Deleted? && ch.path == p && p in b ==>
      ch == Change(Deleted, p, None, Some(b[p]), None, [], NoteOf(b, c, b[p]))
  {
    hide AllChanges, Listed, MovedTo, NoteOf, NoteFor, Pairs;
    ListedIff(b, c, s, Deleted, p);
    Those(b, c, s);
    if p in b && p !in c {
      var k := ContentKey(b[p]);
      PairsIff(b, c, p);
      NoteIs(b, c, p);
      assert IsChange(b, c, DeletionOf(b[p], NoteFor(k, |OnlyIn(b, c, k)|, |OnlyIn(c, b, k)|))) <==> !Pairs(b, c, k);
    }
  }

  lemma Those(b: Tree, c: Tree, s: seq<Change>)
    requires AllChanges(b, c, s)
    ensures forall ch :: ch in s ==> IsChange(b, c, ch)
  {
    hide IsChange;
  }

  /** The note on a deletion or a creation. */
  function NoteOf(b: Tree, c: Tree, e: Entry): Note {
    var gone, arrived := SameContent(b, c, e), SameContent(c, b, e);
    if gone == {} || arrived == {} then NoNote
    else Ambiguous(|gone|, |arrived|, if |e.checksum| < 12 then e.checksum else e.checksum[..12])
  }

  lemma NoteIs(b: Tree, c: Tree, g: string)
    requires g in b && g !in c && IsTree(b) && IsTree(c)
    ensures var k := ContentKey(b[g]); NoteFor(k, |OnlyIn(b, c, k)|, |OnlyIn(c, b, k)|) == NoteOf(b, c, b[g])
  {
    ContentOf(b, c, g);
    hide SameContent, OnlyIn;
    Members(b, c, g);
    var k := ContentKey(b[g]);
    var arrived := OnlyIn(c, b, k);
    assert |arrived| > 0 <==> arrived != {};
    assert |OnlyIn(b, c, k)| > 0;
    if arrived != {} { var n := SomeElement(arrived); }
  }

  /** A new file, likewise. */
  lemma ArrivedFileIff(b: Tree, c: Tree, s: seq<Change>, p: string)
    requires AllChanges(b, c, s) && IsTree(b) && IsTree(c)
    ensures Listed(s, Created, p) <==> p in c && p !in b && !exists g :: MovedTo(b, c, g, p)
    ensures forall ch :: ch in s && ch.kind.Created? && ch.path == p && p in c ==>
      ch == Change(Created, p, None, None, Some(c[p]), [], NoteOf(b, c, c[p]))
  {
    hide AllChanges, Listed, MovedTo, NoteOf, NoteFor, Pairs;
    ListedIff(b, c, s, Created, p);
    Those(b, c, s);
    if p in c && p !in b {
      var k := ContentKey(c[p]);
      PairsIff(c, b, p);
      MovedBack(b, c, p);
      NoteIs(c, b, p);
      NoteBack(b, c, p);
      assert IsChange(b, c, CreationOf(c[p], NoteFor(k, |OnlyIn(b, c, k)|, |OnlyIn(c, b, k)|))) <==> !Pairs(b, c, k);
    }
  }

  /** Seen from the other side a move is a move. */
  lemma MovedBack(b: Tree, c: Tree, p: string)
    requires p in c && p !in b
    ensures (exists g :: MovedTo(b, c, g, p)) <==> exists g :: MovedTo(c, b, p, g)
    ensures Pairs(b, c, ContentKey(c[p])) <==> Pairs(c, b, ContentKey(c[p]))
  {
    forall g ensures MovedTo(b, c, g, p) <==> MovedTo(c, b, p, g) {
      if MovedTo(b, c, g, p) {
        assert p in SameContent(c, b, b[g]);
        assert SameContent(c, b, c[p]) == SameContent(c, b, b[g]);
        assert SameContent(b, c, c[p]) == SameContent(b, c, b[g]);
      }
      if MovedTo(c, b, p, g) {
        assert g in SameContent(b, c, c[p]);
        assert SameContent(c, b, c[p]) == SameContent(c, b, b[g]);
        assert SameContent(b, c, c[p]) == SameContent(b, c, b[g]);
      }
    }
  }

  lemma NoteBack(b: Tree, c: Tree, p: string)
    requires p in c && p !in b && IsTree(b) && IsTree(c)
    ensures var k := ContentKey(c[p]);
      NoteFor(k, |OnlyIn(c, b, k)|, |OnlyIn(b, c, k)|) == NoteOf(c, b, c[p]) ==>
      NoteFor(k, |OnlyIn(b, c, k)|, |OnlyIn(c, b, k)|) == NoteOf(b, c, c[p])
  {
  }

  /** A rename carries both entries and nothing else. */
  lemma RenameSays(b: Tree, c: Tree, s: seq<Change>, ch: Change)
    requires AllChanges(b, c, s) && IsTree(b) && IsTree(c) && ch in s && ch.kind.Renamed?
    ensures ch.previousPath.Some? && MovedTo(b, c, ch.previousPath.value, ch.path)
    ensures var g := ch.previousPath;
      ch == Change(Renamed, ch.path, g, Some(b[g.value]), Some(c[ch.path]), [], NoNote)
  {
    hide AllChanges, MovedTo, Pairs;
    Those(b, c, s);
    var g := ch.previousPath.value;
    PairsIff(b, c, g);
    var n :| MovedTo(b, c, g, n);
    SameTarget(b, c, g, n, ch.path);
  }

  lemma SameTarget(b: Tree, c: Tree, g: string, n: string, m: string)
    requires MovedTo(b, c, g, n) && m in c && m !in b && ContentKey(b[g]) == ContentKey(c[m])
    ensures m == n
  {
    assert n in SameContent(c, b, b[g]);
    assert m in SameContent(c, b, b[g]);
  }

  // ---------------------------------------------------------------- the order

  /** The list is by path; of one path only permissions can come second, after the content or the metadata. */
  lemma OrderSays(b: Tree, c: Tree, s: seq<Change>, i: nat, j: nat)
    requires AllChanges(b, c, s) && IsTree(b) && IsTree(c) && i < j < |s|
    ensures Less(s[i].path, s[j].path)
      || (s[i].path == s[j].path && s[j].kind.PermissionChanged? && (s[i].kind.Modified? || s[i].kind.MetadataChanged?))
  {
    Those(b, c, s);
    assert Before(s[i], s[j]);
    hide AllChanges, Pairs, ContentDiffers, MetadataDifferences, Clash, NoteFor, OnlyIn;
    assert IsChange(b, c, s[i]) && IsChange(b, c, s[j]) by { assert s[i] in s && s[j] in s; }
    if s[i].kind.Created? && s[j].kind.Renamed? && s[i].path == s[j].path {
      assert false;
    }
  }
}
