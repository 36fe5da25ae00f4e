/** A quick pass, which takes the files whose stamp did not change on trust, against a deep one. */
module QuickPass {
  import opened Wrappers
  import opened Snapshots
  import opened Changes

  /** What a listing tells of a file, and what only reading it does. */
  datatype Info = Info(path: string, size: Option<nat>, modifiedAt: Option<int>, etag: Option<string>,
                       version: Option<string>, contentType: Option<string>, mode: Option<nat>)

  datatype Detail = Detail(checksum: string, version: Option<string>, contentType: Option<string>)

  /** `_same_stamp`. */
  predicate SameStamp(info: Info, known: Entry) {
    && known.size.Some? && info.size == known.size
    && (known.modifiedAt.Some? || known.etag.Some?)
    && info.modifiedAt == known.modifiedAt && info.etag == known.etag
  }

  predicate Trusted(infos: map<string, Info>, baseline: Tree, p: string) {
    p in infos && p in baseline && SameStamp(infos[p], baseline[p])
  }

  /** The sizes are known and equal, a time or an etag was recorded, and the time and the etag listed now are
      those, or as absent. */
  predicate Unchanged(info: Info, known: Entry) {
    known.size.Some? && info.size.Some? && info.size.value == known.size.value
    && (if known.modifiedAt.Some? then info.modifiedAt.Some? && info.modifiedAt.value == known.modifiedAt.value
        else info.modifiedAt.None? && known.etag.Some?)
    && (if known.etag.Some? then info.etag.Some? && info.etag.value == known.etag.value else info.etag.None?)
  }

  /** `quick_matches`, over the files as they are listed, each under its own path. */
  method QuickMatches(listed: seq<Info>, baseline: Tree) returns (r: Tree)
    ensures forall p :: p in r <==>
      p in baseline && exists i :: 0 <= i < |listed| && listed[i].path == p && Unchanged(listed[i], baseline[p])
    ensures forall p :: p in r ==> r[p] == baseline[p]
  {
    r := map[];
    for i := 0 to |listed|
      invariant forall p :: p in r <==>
        p in baseline && exists k :: 0 <= k < i && listed[k].path == p && Unchanged(listed[k], baseline[p])
      invariant forall p :: p in r ==> r[p] == baseline[p]
    {
      var info := listed[i];
      if info.path in baseline && SameStamp(info, baseline[info.path]) {
        r := r[info.path := baseline[info.path]];
      }
    }
  }

  function Or<T>(a: Option<T>, b: Option<T>): Option<T> {
    if a.Some? then a else b
  }

  /** The entry of `build_snapshot`, from the listing and from what was read or carried over. */
  function Described(info: Info, detail: Detail): Entry {
    Entry(info.path, info.size, info.modifiedAt, detail.checksum, Or(info.contentType, detail.contentType),
          Or(info.version, detail.version), info.etag, info.mode)
  }

  function Carried(known: Entry): Detail {
    Detail(known.checksum, known.version, known.contentType)
  }

  /** Every file is read. */
  function DeepTree(infos: map<string, Info>, details: map<string, Detail>): Tree
    requires infos.Keys == details.Keys
  {
    map p | p in infos :: Described(infos[p], details[p])
  }

  /** Only files without a trusted entry in the baseline are read. */
  function QuickTree(infos: map<string, Info>, details: map<string, Detail>, baseline: Tree): Tree
    requires infos.Keys == details.Keys
  {
    map p | p in infos :: Described(infos[p], if Trusted(infos, baseline, p) then Carried(baseline[p]) else details[p])
  }

  /** At a path it does not trust, a quick pass finds what a deep one finds; where it trusts the file, it
      misses the modification that a deep one finds, if there is one. */
  lemma QuickMissesIff(infos: map<string, Info>, details: map<string, Detail>, b: Tree, ch: Change)
    requires infos.Keys == details.Keys
    ensures var quick, deep := QuickTree(infos, details, b), DeepTree(infos, details);
      && (!Trusted(infos, b, ch.path) ==> (IsChange(b, quick, ch) <==> IsChange(b, deep, ch)))
      && (Trusted(infos, b, ch.path) ==> !(ch.kind.Modified? && IsChange(b, quick, ch)))
  {
    hide IsChange;
    var quick, deep := QuickTree(infos, details, b), DeepTree(infos, details);
    hide QuickTree, DeepTree;
    SamePaths(infos, details, b);
    if ch.kind in {Created, Deleted, Renamed} {
      SameArrivals(b, quick, deep, ch);
    } else {
      SameInBoth(infos, details, b, ch);
    }
  }

  lemma SamePaths(infos: map<string, Info>, details: map<string, Detail>, b: Tree)
    requires infos.Keys == details.Keys
    ensures var quick, deep := QuickTree(infos, details, b), DeepTree(infos, details);
      quick.Keys == deep.Keys && forall p :: p in quick && p !in b ==> quick[p] == deep[p]
  {
  }

  lemma SameInBoth(infos: map<string, Info>, details: map<string, Detail>, b: Tree, ch: Change)
    requires infos.Keys == details.Keys && ch.kind !in {Created, Deleted, Renamed}
    ensures var quick, deep := QuickTree(infos, details, b), DeepTree(infos, details);
      && (!Trusted(infos, b, ch.path) ==> (IsChange(b, quick, ch) <==> IsChange(b, deep, ch)))
      && (Trusted(infos, b, ch.path) ==> !(ch.kind.Modified? && IsChange(b, quick, ch)))
  {
    hide SameStamp;
    var p := ch.path;
    if Trusted(infos, b, p) { TrustedIsUnmodified(infos[p], b[p]); }
  }

  lemma TrustedIsUnmodified(info: Info, known: Entry)
    requires SameStamp(info, known)
    ensures !ContentDiffers(known, Described(info, Carried(known)))
  {
  }

  /** There is a change of the kind at the path. */
  ghost predicate Finds(b: Tree, c: Tree, kind: ChangeKind, p: string) {
    exists ch :: IsChange(b, c, ch) && ch.kind == kind && ch.path == p
  }

  /** Of a file that it trusts, a quick pass finds the change of mode a deep one finds, and a change of
      metadata exactly if the listing itself tells another version or content type than was recorded. */
  lemma TrustedFindsIff(infos: map<string, Info>, details: map<string, Detail>, b: Tree, p: string)
    requires infos.Keys == details.Keys && Trusted(infos, b, p) && infos[p].path == p
    ensures var quick, deep := QuickTree(infos, details, b), DeepTree(infos, details);
      && !Finds(b, quick, Modified, p)
      && (Finds(b, quick, PermissionChanged, p) <==> Finds(b, deep, PermissionChanged, p))
      && (Finds(b, quick, MetadataChanged, p) <==>
           Clash(b[p].contentType, infos[p].contentType) || Clash(b[p].version, infos[p].version))
  {
    var quick, deep := QuickTree(infos, details, b), DeepTree(infos, details);
    assert p in quick && p in deep && quick[p].path == p && deep[p].path == p;
    FindsIff(b, quick, p);
    FindsIff(b, deep, p);
    TrustedIsUnmodified(infos[p], b[p]);
    TrustedDifferences(infos[p], b[p]);
    hide Finds, IsChange, ContentDiffers, MetadataDifferences, SameStamp;
  }

  lemma FindsIff(b: Tree, c: Tree, p: string)
    requires p in b && p in c && c[p].path == p
    ensures Finds(b, c, Modified, p) <==> ContentDiffers(b[p], c[p])
    ensures Finds(b, c, PermissionChanged, p) <==> Clash(b[p].mode, c[p].mode)
    ensures Finds(b, c, MetadataChanged, p) <==> !ContentDiffers(b[p], c[p]) && MetadataDifferences(b[p], c[p]) != []
  {
    hide ContentDiffers, MetadataDifferences;
    var m, d := Between(Modified, b[p], c[p], []), MetadataDifferences(b[p], c[p]);
    assert ContentDiffers(b[p], c[p]) ==> IsChange(b, c, m);
    assert Clash(b[p].mode, c[p].mode) ==> IsChange(b, c, Between(PermissionChanged, b[p], c[p], ["mode"]));
    assert !ContentDiffers(b[p], c[p]) && d != [] ==> IsChange(b, c, Between(MetadataChanged, b[p], c[p], d));
  }

  lemma TrustedDifferences(info: Info, known: Entry)
    requires SameStamp(info, known)
    ensures MetadataDifferences(known, Described(info, Carried(known))) != [] <==>
      Clash(known.contentType, info.contentType) || Clash(known.version, info.version)
  {
  }

  /** Files in one tree only are compared with those alone. */
  lemma SameArrivals(b: Tree, x: Tree, y: Tree, ch: Change)
    requires x.Keys == y.Keys && forall p :: p in x && p !in b ==> x[p] == y[p]
    requires ch.kind in {Created, Deleted, Renamed}
    ensures IsChange(b, x, ch) <==> IsChange(b, y, ch)
  {
    hide ContentKey, NoteFor, Pairs;
    forall k ensures OnlyIn(b, x, k) == OnlyIn(b, y, k) && OnlyIn(x, b, k) == OnlyIn(y, b, k) {
    }
    forall k ensures Pairs(b, x, k) <==> Pairs(b, y, k) {
      PairsAlike(b, x, y, k);
    }
    hide OnlyIn;
  }

  lemma PairsAlike(b: Tree, x: Tree, y: Tree, k: Key)
    requires OnlyIn(b, x, k) == OnlyIn(b, y, k) && OnlyIn(x, b, k) == OnlyIn(y, b, k)
    ensures Pairs(b, x, k) <==> Pairs(b, y, k)
  {
  }
}
