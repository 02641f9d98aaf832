/** Pruning of archives and database backups, and finding the newest backup. */
module Retention {
  import opened Text
  import opened Decimal
  import opened Calendar
  import opened Store
  import opened Names
  import opened Buckets

  // ---- deletePrefix -------------------------------------------------------

  /** How deletePrefix ends: it has named every object, or the listing or a batch
      deletion failed. */
  datatype Deletion = AllNamed | NotListed | Refused(reply: Reply)

  /** deletePrefix: list a page, delete it, go on after its last key.

      Although the listed set shrinks during the loop, success means that every
      object under the prefix was named in some batch: it is gone, or the store
      reported an error for it (missed).  Nothing else is touched, and no batch is
      ever refused for being empty or too large; when requests do not fail, every
      object under the prefix is gone. */
  method DeletePrefix(b: Bucket, prefix: string)
      returns (r: Deletion, ghost gone: set<string>, ghost missed: set<string>)
    modifies b
    ensures b.objects == old(b.objects) - gone
    ensures gone + missed <= Under(old(b.objects.Keys), prefix) && gone !! missed
    ensures r.AllNamed? ==> gone + missed == Under(old(b.objects.Keys), prefix)
    ensures r.Refused? ==> r.reply.Unavailable?
    ensures b.reliable ==> r.AllNamed? && missed == {}
  {
    ghost var start := b.objects;
    var token: Option<string> := None;
    var more := true;
    gone, missed := {}, {};
    DeletionStart(start, prefix);
    while more
      invariant b.objects == start - gone
      invariant DeletedTo(start, prefix, token, gone, missed)
      invariant !more ==> gone + missed == Under(start.Keys, prefix)
      invariant b.reliable ==> missed == {}
      decreases |Beyond(Under(start.Keys, prefix), token)| + if more then 1 else 0
    {
      var p := ListPrefix(b, prefix, token);
      if p.None? { return NotListed, gone, missed; }
      var page := p.value;
      PageWithin(start, prefix, token, gone, missed, page);
      if |page.keys| == 0 {
        more := page.more;
        continue;
      }
      var refused;
      ghost var went, errors;
      refused, went, errors := DeletePage(b, page);
      RemoveTwice(start, gone, went);
      if refused.Some? {
        NamedWithin(start, prefix, token, gone, missed, page, went);
        return Refused(refused.value), gone + went, missed;
      }
      DeletionStep(start, prefix, token, gone, missed, page, went, errors);
      gone, missed := gone + went, missed + errors;
      token, more := NextOf(token, page), page.more;
    }
    r := AllNamed;
  }

  /** The batch deletion of one page. */
  method DeletePage(b: Bucket, page: Page)
      returns (refused: Option<Reply>, ghost went: set<string>, ghost errors: set<string>)
    requires 0 < |page.keys| <= MAX_KEYS
    modifies b
    ensures b.objects == old(b.objects) - went
    ensures went <= Elements(page.keys) && went !! errors
    ensures refused.Some? ==> refused.value.Unavailable? && errors == {}
    ensures refused.None? ==> went + errors == Elements(page.keys)
    ensures b.reliable ==> refused.None? && errors == {}
  {
    var reply;
    reply, went := b.DeleteObjects(page.keys);
    errors := {};
    if !reply.Deleted? { return Some(reply), went, errors; }
    errors := reply.errors;
    refused := None;
  }

  lemma NamedWithin(
    start: Objects, prefix: string, token: Option<string>, gone: set<string>, missed: set<string>,
    page: Page, went: set<string>)
    requires DeletedTo(start, prefix, token, gone, missed) && went <= Elements(page.keys)
    requires Elements(page.keys) <= Beyond(Under(start.Keys, prefix), token)
    ensures (gone + went) + missed <= Under(start.Keys, prefix) && gone + went !! missed
  {
  }

  /** The progress one page makes. */
  ghost predicate PageDeleted(
    start: Objects, prefix: string, token: Option<string>, page: Page, gone: set<string>, missed: set<string>)
  {
    var next := NextOf(token, page);
    && DeletedTo(start, prefix, next, gone, missed)
    && |Beyond(Under(start.Keys, prefix), next)| < |Beyond(Under(start.Keys, prefix), token)|
    && (!page.more ==> gone + missed == Under(start.Keys, prefix))
  }

  lemma RemoveTwice<K, V>(m: map<K, V>, a: set<K>, b: set<K>)
    ensures (m - a) - b == m - (a + b)
  {
  }

  method ListPrefix(b: Bucket, prefix: string, token: Option<string>) returns (p: Option<Page>)
    ensures p.Some? ==> IsPage(p.value, Under(b.objects.Keys, prefix), token)
    ensures b.reliable ==> p.Some?
  {
    var entries := set k | k in b.objects.Keys && HasPrefix(k, prefix);
    p := b.ListPage(entries, token);
  }

  /** The sorted listing of the backup keys. */
  method ListBackups(b: Bucket) returns (r: Option<seq<string>>)
    ensures r.Some? ==> r.value == Sorted(Under(b.objects.Keys, BACKUPS))
    ensures b.reliable ==> r.Some?
  {
    var entries := set k | k in b.objects.Keys && HasPrefix(k, BACKUPS);
    var listed := ListAll(b, entries);
    if listed.None? { return None; }
    AscendingIsDistinct(listed.value);
    var keys := SortStrings(listed.value);
    r := Some(keys);
  }

  /** How far deletePrefix has come: every object up to the token was named. */
  ghost predicate DeletedTo(
    start: Objects, prefix: string, token: Option<string>, gone: set<string>, missed: set<string>)
  {
    var all := Under(start.Keys, prefix);
    gone !! missed && gone + missed == all - Beyond(all, token)
  }

  lemma DeletionStart(start: Objects, prefix: string)
    ensures start - {} == start
    ensures DeletedTo(start, prefix, None, {}, {})
  {
    assert Beyond(Under(start.Keys, prefix), None) == Under(start.Keys, prefix);
  }

  /** A page of what is left is a page of the original listing. */
  lemma PageWithin(
    start: Objects, prefix: string, token: Option<string>, gone: set<string>, missed: set<string>, page: Page)
    requires DeletedTo(start, prefix, token, gone, missed)
    requires IsPage(page, Under((start - gone).Keys, prefix), token)
    ensures IsPage(page, Under(start.Keys, prefix), token)
    ensures Elements(page.keys) <= Under(start.Keys, prefix) && Elements(page.keys) !! gone + missed
    ensures page.keys == [] ==> !page.more && gone + missed == Under(start.Keys, prefix)
  {
    var all := Under(start.Keys, prefix);
    assert Beyond(Under((start - gone).Keys, prefix), token) == Beyond(all, token);
    NoElements(page.keys);
  }

  lemma DeletionStep(
    start: Objects, prefix: string, token: Option<string>, gone: set<string>, missed: set<string>,
    page: Page, went: set<string>, errors: set<string>)
    requires DeletedTo(start, prefix, token, gone, missed)
    requires IsPage(page, Under(start.Keys, prefix), token) && page.keys != []
    requires Elements(page.keys) !! gone + missed
    requires went !! errors && went + errors == Elements(page.keys)
    ensures PageDeleted(start, prefix, token, page, gone + went, missed + errors)
  {
    var all := Under(start.Keys, prefix);
    var left := Beyond(all, token);
    NextLeft(all, token, page);
    NamedStep(all, left, Elements(page.keys), gone, missed, went, errors);
    NamedPage(start, prefix, token, page, left, gone + went, missed + errors);
  }

  lemma NextLeft(all: set<string>, token: Option<string>, page: Page)
    requires IsPage(page, all, token) && page.keys != []
    ensures
      var left, next := Beyond(all, token), Beyond(all, NextOf(token, page));
      && next == left - Elements(page.keys) && |next| < |left|
      && Elements(page.keys) <= left <= all && (!page.more ==> left == Elements(page.keys))
  {
    NextToken(all, token, page);
  }

  lemma NamedPage(
    start: Objects, prefix: string, token: Option<string>, page: Page, left: set<string>,
    gone: set<string>, missed: set<string>)
    requires left == Beyond(Under(start.Keys, prefix), token) && page.keys != []
    requires
      var next := Beyond(Under(start.Keys, prefix), NextOf(token, page));
      next == left - Elements(page.keys) && |next| < |left|
    requires gone !! missed && gone + missed == Under(start.Keys, prefix) - (left - Elements(page.keys))
    requires !page.more ==> gone + missed == Under(start.Keys, prefix)
    ensures PageDeleted(start, prefix, token, page, gone, missed)
  {
  }

  /** The set arithmetic of one deleted page. */
  lemma NamedStep(
    all: set<string>, left: set<string>, page: set<string>,
    gone: set<string>, missed: set<string>, went: set<string>, errors: set<string>)
    requires gone !! missed && gone + missed == all - left
    requires page <= left <= all && went !! errors && went + errors == page
    ensures gone + went !! missed + errors
    ensures (gone + went) + (missed + errors) == all - (left - page)
    ensures left == page ==> (gone + went) + (missed + errors) == all
  {
  }

  // ---- archives -----------------------------------------------------------

  ghost function Groups(keys: set<string>): set<string> {
    set k | k in keys && GroupOf(k).Some? :: GroupOf(k).value
  }

  /** The objects of the given archive groups. */
  ghost function Members(keys: set<string>, groups: set<string>): set<string> {
    set k | k in keys && GroupOf(k).Some? && GroupOf(k).value in groups
  }

  datatype PruneResult = Pruned(n: nat) | ListFailed | DeleteFailed(n: nat) | Panicked

  /** The listing of common prefixes under "archive/" with delimiter "/", each
      with its trailing slash trimmed. */
  method ListGroups(b: Bucket) returns (r: Option<seq<string>>)
    ensures r.Some? ==> Distinct(r.value) && Elements(r.value) == Groups(b.objects.Keys)
    ensures b.reliable ==> r.Some?
  {
    var prefixes := set k | k in b.objects.Keys && GroupOf(k).Some? :: GroupOf(k).value + "/";
    var listed := ListAll(b, prefixes);
    if listed.None? { return None; }
    forall p | p in listed.value ensures |p| > 0 {
      assert p in Elements(listed.value);
    }
    var keys := seq(|listed.value|, i requires 0 <= i < |listed.value| => TrimSlash(listed.value[i]));
    TrimmedPrefixes(b.objects.Keys, listed.value, keys);
    r := Some(keys);
  }

  method SortedGroups(b: Bucket) returns (r: Option<seq<string>>)
    ensures r.Some? ==> r.value == Sorted(Groups(b.objects.Keys))
    ensures b.reliable ==> r.Some?
  {
    var listed := ListGroups(b);
    if listed.None? { return None; }
    var keys := SortStrings(listed.value);
    r := Some(keys);
  }

  /** strings.TrimSuffix(s, "/"). */
  function TrimSlash(s: string): string {
    if |s| > 0 && s[|s| - 1] == '/' then s[..|s| - 1] else s
  }

  lemma TrimmedPrefixes(objects: set<string>, listed: seq<string>, keys: seq<string>)
    requires Ascending(listed)
    requires Elements(listed) == set k | k in objects && GroupOf(k).Some? :: GroupOf(k).value + "/"
    requires |keys| == |listed| && forall i :: 0 <= i < |keys| ==> keys[i] == TrimSlash(listed[i])
    ensures Distinct(keys) && Elements(keys) == Groups(objects)
  {
    AscendingIsDistinct(listed);
    forall i | 0 <= i < |keys| ensures listed[i] == keys[i] + "/" && keys[i] in Groups(objects) {
      assert listed[i] in Elements(listed);
      var k :| k in objects && GroupOf(k).Some? && listed[i] == GroupOf(k).value + "/";
      assert keys[i] == GroupOf(k).value;
    }
    forall g | g in Groups(objects) ensures g in keys {
      assert g + "/" in Elements(listed);
      var i :| 0 <= i < |listed| && listed[i] == g + "/";
      assert keys[i] == g;
    }
  }

  /** PruneArchives: delete the archive groups that sort first, beyond keep. */
  method PruneArchives(b: Bucket, keep: int)
      returns (r: PruneResult, ghost gone: set<string>, ghost missed: set<string>)
    modifies b
    ensures b.objects == old(b.objects) - gone
    ensures r.ListFailed? ==> gone == {}
    ensures !r.ListFailed? ==> PrunedArchives(old(b.objects.Keys), keep, r, gone, missed)
    ensures b.reliable ==> missed == {} && (if keep >= 0 then r.Pruned? else r.Panicked?)
  {
    var listed := SortedGroups(b);
    if listed.None? {
      assert b.objects == b.objects - {};
      return ListFailed, {}, {};
    }
    r, gone, missed := DeleteGroups(b, listed.value, keep);
  }

  /** What deleting the first prune groups leaves, by how the loop ends. */
  ghost predicate PrunedFirst(objects: set<string>, prune: nat, r: PruneResult, named: set<string>) {
    var total := |Sorted(Groups(objects))|;
    match r
    case Pruned(n) => n == prune <= total && named == FirstGroups(objects, n)
    case DeleteFailed(n) =>
      n < prune && n < total && FirstGroups(objects, n) <= named <= FirstGroups(objects, n + 1)
    case Panicked => prune > total && named == FirstGroups(objects, total)
    case ListFailed => false
  }

  /** What an archive pruning that could list the archives leaves.

      Success leaves exactly the groups that sort last; a failure part way
      leaves a suffix of the sorted groups and at most one partly deleted group;
      a negative keep deletes every archive and then indexes past the list.
      Objects the store reported errors for (missed) are still there. */
  ghost predicate PrunedArchives(
    objects: set<string>, keep: int, r: PruneResult, gone: set<string>, missed: set<string>)
  {
    var total := |Sorted(Groups(objects))|;
    && gone !! missed
    && if total <= keep then r == Pruned(0) && gone + missed == {}
       else PrunedFirst(objects, total - keep, r, gone + missed)
  }

  /** The deletion loop of PruneArchives over the sorted groups. */
  method DeleteGroups(b: Bucket, keys: seq<string>, keep: int)
      returns (r: PruneResult, ghost gone: set<string>, ghost missed: set<string>)
    requires keys == Sorted(Groups(b.objects.Keys))
    modifies b
    ensures b.objects == old(b.objects) - gone
    ensures PrunedArchives(old(b.objects.Keys), keep, r, gone, missed)
    ensures b.reliable ==> missed == {} && !r.DeleteFailed?
  {
    if |keys| <= keep {
      NoGroups(b.objects);
      return Pruned(0), {}, {};
    }
    r, gone, missed := DeleteFirst(b, keys, |keys| - keep);
  }

  /** The objects named so far are those of the first n groups. */
  ghost predicate NamedFirst(objects: set<string>, n: nat, gone: set<string>, missed: set<string>) {
    n <= |Sorted(Groups(objects))| && gone !! missed && gone + missed == FirstGroups(objects, n)
  }

  /** The objects named so far are those of the first n groups and some of the next. */
  ghost predicate NamedPart(objects: set<string>, n: nat, gone: set<string>, missed: set<string>) {
    && n < |Sorted(Groups(objects))| && gone !! missed
    && FirstGroups(objects, n) <= gone + missed <= FirstGroups(objects, n + 1)
  }

  /** The loop over the groups to prune; beyond the last group it panics. */
  method DeleteFirst(b: Bucket, keys: seq<string>, prune: nat)
      returns (r: PruneResult, ghost gone: set<string>, ghost missed: set<string>)
    requires keys == Sorted(Groups(b.objects.Keys))
    modifies b
    ensures b.objects == old(b.objects) - gone && gone !! missed
    ensures b.reliable ==> missed == {} && !r.DeleteFailed?
    ensures PrunedFirst(old(b.objects.Keys), prune, r, gone + missed)
  {
    ghost var start := b.objects;
    gone, missed := {}, {};
    NoGroups(start);
    var i := 0;
    while i < prune
      invariant 0 <= i <= |keys| && i <= prune
      invariant b.objects == start - gone && NamedFirst(start.Keys, i, gone, missed)
      invariant b.reliable ==> missed == {}
    {
      if i >= |keys| { return Panicked, gone, missed; }
      var ok: bool;
      ok, gone, missed := DeleteGroup(b, start, keys[i], i, gone, missed);
      if !ok { return DeleteFailed(i), gone, missed; }
      i := i + 1;
    }
    r := Pruned(prune);
  }

  lemma NoGroups(objects: Objects)
    ensures objects - {} == objects && FirstGroups(objects.Keys, 0) == {}
  {
  }

  method DeleteGroup(
    b: Bucket, ghost start: Objects, key: string, ghost i: nat, ghost gone0: set<string>, ghost missed0: set<string>)
      returns (ok: bool, ghost gone: set<string>, ghost missed: set<string>)
    requires i < |Sorted(Groups(start.Keys))| && key == Sorted(Groups(start.Keys))[i]
    requires b.objects == start - gone0 && NamedFirst(start.Keys, i, gone0, missed0)
    modifies b
    ensures b.objects == start - gone
    ensures if ok then NamedFirst(start.Keys, i + 1, gone, missed) else NamedPart(start.Keys, i, gone, missed)
    ensures b.reliable ==> ok && missed == missed0
  {
    GroupIsNext(start.Keys, gone0, i);
    ghost var g, m;
    var r;
    r, g, m := DeletePrefix(b, key + "/");
    ok := r.AllNamed?;
    RemoveTwice(start, gone0, g);
    DeletedGroup(start.Keys, i, gone0, missed0, g, m);
    gone, missed := gone0 + g, missed0 + m;
  }

  lemma DeletedGroup(
    objects: set<string>, i: nat, gone: set<string>, missed: set<string>, g: set<string>, m: set<string>)
    requires i < |Sorted(Groups(objects))|
    requires NamedFirst(objects, i, gone, missed)
    requires g !! m && g + m <= Members(objects, {Sorted(Groups(objects))[i]})
    ensures NamedPart(objects, i, gone + g, missed + m)
    ensures g + m == Members(objects, {Sorted(Groups(objects))[i]}) ==>
              NamedFirst(objects, i + 1, gone + g, missed + m)
  {
    MemberStep(objects, i);
  }

  /** The objects of the n archive groups that sort first. */
  ghost function FirstGroups(objects: set<string>, n: nat): set<string>
    requires n <= |Sorted(Groups(objects))|
  {
    Members(objects, Elements(Sorted(Groups(objects))[..n]))
  }

  lemma MemberStep(objects: set<string>, i: nat)
    requires i < |Sorted(Groups(objects))|
    ensures
      var g := Sorted(Groups(objects))[i];
      && FirstGroups(objects, i + 1) == FirstGroups(objects, i) + Members(objects, {g})
      && FirstGroups(objects, i) !! Members(objects, {g})
  {
    var sorted := Sorted(Groups(objects));
    AscendingStep(sorted, i);
    MembersOfMore(objects, Elements(sorted[..i]), sorted[i]);
  }

  lemma MembersOfMore(objects: set<string>, groups: set<string>, g: string)
    requires g !in groups
    ensures Members(objects, groups + {g}) == Members(objects, groups) + Members(objects, {g})
    ensures Members(objects, groups) !! Members(objects, {g})
  {
  }

  /** What deletePrefix reaches, once the earlier groups are gone or were missed,
      is exactly the next group. */
  lemma GroupIsNext(objects: set<string>, gone: set<string>, i: nat)
    requires i < |Sorted(Groups(objects))|
    requires gone <= FirstGroups(objects, i)
    ensures
      var g := Sorted(Groups(objects))[i];
      Under(objects - gone, g + "/") == Members(objects, {g})
  {
    MemberStep(objects, i);
    var g := Sorted(Groups(objects))[i];
    assert g in Elements(Sorted(Groups(objects)));
    var k0 :| k0 in objects && GroupOf(k0) == Some(g);
    GroupPrefix(k0, g);
    forall k ensures HasPrefix(k, g + "/") <==> GroupOf(k) == Some(g) {
      GroupPrefix(k, g);
    }
  }

  /** After a complete pruning the groups left are the last of the sorted list;
      their objects, and every object outside the archive groups, are all there. */
  lemma PruningKeepsTheLast(objects: set<string>, n: nat)
    requires n <= |Sorted(Groups(objects))|
    ensures
      var kept := Elements(Sorted(Groups(objects))[n..]);
      var left := objects - FirstGroups(objects, n);
      && Groups(left) == kept
      && Members(left, kept) == Members(objects, kept)
      && (forall k :: k in objects && GroupOf(k).None? ==> k in left)
  {
    var sorted := Sorted(Groups(objects));
    var kept := Elements(sorted[n..]);
    var left := objects - FirstGroups(objects, n);
    SuffixOfSorted(Groups(objects), n);
    forall g | g in kept ensures g in Groups(left) {
      assert g in Groups(objects);
      var k :| k in objects && GroupOf(k) == Some(g);
      assert k in left;
    }
    forall g | g in Groups(left) ensures g in kept {
      var k :| k in left && GroupOf(k) == Some(g);
      assert g in Groups(objects);
    }
  }

  datatype Snap = Snap(version: nat, at: nat)

  predicate Older(a: Snap, b: Snap) {
    a.version < b.version || (a.version == b.version && a.at < b.at)
  }

  /** The bucket holds the archive of this version and instant. */
  ghost predicate HasArchive(objects: set<string>, a: Snap) {
    FourDigitYear(a.at) && ArchiveName(a.version, a.at) in Groups(objects)
  }

  /** Deleting the first n groups deletes a and keeps b. */
  ghost predicate Parts(objects: set<string>, n: nat, a: Snap, b: Snap) {
    && HasArchive(objects, a) && HasArchive(objects, b)
    && Splits(Groups(objects), n, ArchiveName(a.version, a.at), ArchiveName(b.version, b.at))
  }

  /** Cutting the sorted list after n entries puts x before the cut and y after it. */
  ghost predicate Splits(keys: set<string>, n: nat, x: string, y: string) {
    n <= |Sorted(keys)| && x in Sorted(keys)[..n] && y in Sorted(keys)[n..]
  }

  /** Some cut has x before it and y after it exactly when x sorts before y. */
  lemma CutBetween(keys: set<string>, x: string, y: string)
    requires x in keys && y in keys
    ensures (exists n: nat :: Splits(keys, n, x, y)) <==> Less(x, y)
  {
    if Less(x, y) {
      var n := CutAfter(keys, x, y);
    }
    if n: nat :| Splits(keys, n, x, y) {
      SplitOrder(keys, n, x, y);
    }
  }

  lemma CutAfter(keys: set<string>, x: string, y: string) returns (n: nat)
    requires x in keys && y in keys && Less(x, y)
    ensures Splits(keys, n, x, y)
  {
    var sorted := Sorted(keys);
    assert x in Elements(sorted) && y in Elements(sorted);
    var i :| 0 <= i < |sorted| && sorted[i] == x;
    var j :| 0 <= j < |sorted| && sorted[j] == y;
    if j <= i {
      LessAsymmetricOrEqual(sorted, j, i);
    }
    n := i + 1;
    assert sorted[..n][i] == x && sorted[n..][j - n] == y;
  }

  lemma SplitOrder(keys: set<string>, n: nat, x: string, y: string)
    requires Splits(keys, n, x, y)
    ensures Less(x, y)
  {
    var sorted := Sorted(keys);
    var i :| 0 <= i < n && sorted[i] == x;
    var j :| n <= j < |sorted| && sorted[j] == y;
  }

  lemma LessAsymmetricOrEqual(sorted: seq<string>, j: nat, i: nat)
    requires Ascending(sorted) && j <= i < |sorted|
    ensures !Less(sorted[i], sorted[j])
  {
    if j < i {
      LessAsymmetric(sorted[j], sorted[i]);
    } else {
      LessIrreflexive(sorted[i]);
    }
  }

  /** v cut to as many digits as u has. */
  function CutLike(v: nat, u: nat): nat {
    if Width(u) <= Width(v) then Cut(v, Width(v) - Width(u)) else v
  }

  /** In any bucket pruning can delete a newer archive and keep an older one of another
      version exactly when the older version exceeds the newer one cut to as many
      digits. */
  lemma PruningOrderExact(objects: set<string>, older: Snap, newer: Snap)
    requires HasArchive(objects, older) && HasArchive(objects, newer) && older.version < newer.version
    ensures (exists n: nat :: Parts(objects, n, newer, older)) <==> older.version > CutLike(newer.version, older.version)
  {
    var x, y := ArchiveName(older.version, older.at), ArchiveName(newer.version, newer.at);
    NewerFirstExact(older.version, older.at, newer.version, newer.at);
    CutBetween(Groups(objects), y, x);
    assert forall n: nat :: Parts(objects, n, newer, older) <==> Splits(Groups(objects), n, y, x);
  }

  lemma NewerFirstExact(u: nat, t: nat, v: nat, s: nat)
    requires FourDigitYear(t) && FourDigitYear(s) && u < v
    ensures Less(ArchiveName(v, s), ArchiveName(u, t)) <==> u > CutLike(v, u)
  {
    var x, y := ArchiveName(u, t), ArchiveName(v, s);
    ArchiveNameOrderExact(u, t, v, s);
    CutIsQuotient(v, Width(v) - Width(u));
    DifferentVersionsDifferentNames(u, t, v, s);
    if Less(x, y) {
      LessAsymmetric(x, y);
    } else {
      LessTotal(x, y);
    }
  }

  /** Archives of one version are always pruned in the order of time. */
  lemma SameVersionOrder(objects: set<string>, n: nat, a: Snap, b: Snap)
    requires Parts(objects, n, a, b) && a.version == b.version
    ensures a.at < b.at
  {
    SplitOrder(Groups(objects), n, ArchiveName(a.version, a.at), ArchiveName(b.version, b.at));
    ArchiveNameOrder(a.version, a.at, b.version, b.at);
  }

  /** However many groups are deleted, every archive deleted is older than every
      archive kept. */
  ghost predicate PrunesOldest(objects: set<string>) {
    forall n: nat, a: Snap, b: Snap :: Parts(objects, n, a, b) ==> Older(a, b)
  }

  /** No archive's version exceeds a newer one's cut to as many digits. */
  ghost predicate VersionsSortAsText(objects: set<string>) {
    forall a: Snap, b: Snap :: HasArchive(objects, a) && HasArchive(objects, b) && a.version < b.version ==>
      a.version <= CutLike(b.version, a.version)
  }

  /** Exactly when pruning keeps the newest archives, whatever the bucket and keep. */
  lemma PruningKeepsTheNewest(objects: set<string>)
    ensures PrunesOldest(objects) <==> VersionsSortAsText(objects)
  {
    if VersionsSortAsText(objects) {
      forall n: nat, a: Snap, b: Snap | Parts(objects, n, a, b) ensures Older(a, b) {
        if a.version == b.version {
          SameVersionOrder(objects, n, a, b);
        } else if b.version < a.version {
          PruningOrderExact(objects, b, a);
        }
      }
    }
    if PrunesOldest(objects) {
      forall a: Snap, b: Snap | HasArchive(objects, a) && HasArchive(objects, b) && a.version < b.version
        ensures a.version <= CutLike(b.version, a.version)
      {
        PruningOrderExact(objects, a, b);
      }
    }
  }

  /** In particular it does when all versions have equally many digits. */
  lemma EqualWidthsSortAsText(objects: set<string>)
    requires forall a: Snap, b: Snap :: HasArchive(objects, a) && HasArchive(objects, b) ==>
               Width(a.version) == Width(b.version)
    ensures PrunesOldest(objects)
  {
    forall a: Snap, b: Snap | HasArchive(objects, a) && HasArchive(objects, b) && a.version < b.version
      ensures a.version <= CutLike(b.version, a.version)
    {
      assert Width(a.version) == Width(b.version);
    }
    PruningKeepsTheNewest(objects);
  }

  lemma DifferentVersionsDifferentNames(u: nat, t: nat, v: nat, s: nat)
    requires FourDigitYear(t) && FourDigitYear(s) && u < v
    ensures ArchiveName(u, t) != ArchiveName(v, s)
  {
    WidthMonotone(u, v);
    WidthBound(u);
    WidthBound(v);
    if Width(u) == Width(v) {
      DigitsOrder(u, v, Width(u));
      assert ArchiveName(u, t)[9..9 + Width(u)] == Dec(u);
      assert ArchiveName(v, s)[9..9 + Width(u)] == Dec(v);
    } else {
      ArchiveNameLength(u, t);
      ArchiveNameLength(v, s);
    }
  }

  lemma ArchiveNameLength(v: nat, t: nat)
    requires FourDigitYear(t)
    ensures |ArchiveName(v, t)| == Width(v) + 25
  {
  }

  /** The program's intention fails at the step from one to two digits: in every
      bucket that holds v9 and the newer v10 some pruning deletes v10 and keeps v9. */
  lemma TenBeforeNine(objects: set<string>, t: nat, s: nat)
    requires HasArchive(objects, Snap(9, t)) && HasArchive(objects, Snap(10, s))
    ensures exists n: nat :: Parts(objects, n, Snap(10, s), Snap(9, t))
    ensures !PrunesOldest(objects)
  {
    PruningOrderExact(objects, Snap(9, t), Snap(10, s));
    assert Width(1) == 1 && Width(10) == 2 && Width(9) == 1;
    var n: nat :| Parts(objects, n, Snap(10, s), Snap(9, t));
    assert !Older(Snap(10, s), Snap(9, t));
  }

  // ---- database backups ---------------------------------------------------

  /** The backups a complete pruning deletes. */
  ghost function Surplus(objects: set<string>, keep: nat): set<string> {
    var sorted := Sorted(Under(objects, BACKUPS));
    if |sorted| <= keep then {} else Elements(sorted[..|sorted| - keep])
  }

  lemma SurplusWithin(objects: set<string>, keep: nat)
    ensures Surplus(objects, keep) <= Under(objects, BACKUPS)
  {
    var sorted := Sorted(Under(objects, BACKUPS));
    forall k | k in Surplus(objects, keep) ensures k in Elements(sorted) {
    }
  }

  /** PruneDBBackups: one batch deletion of the backups that sort first.  The
      batch is refused when it names more than MAX_KEYS backups; a negative keep
      indexes past the list before anything is deleted. */
  method PruneDBBackups(b: Bucket, keep: int)
      returns (r: PruneResult, ghost gone: set<string>, ghost missed: set<string>)
    modifies b
    ensures b.objects == old(b.objects) - gone && gone !! missed
    ensures
      var backups := Under(old(b.objects.Keys), BACKUPS);
      && (keep >= 0 ==> !r.Panicked? && gone + missed <= Surplus(old(b.objects.Keys), keep))
      && (r.Pruned? ==> keep >= 0 && r.n == (if |backups| <= keep then 0 else |backups| - keep)
                        && gone + missed == Surplus(old(b.objects.Keys), keep))
      && (keep < 0 ==> r.Panicked? || r.ListFailed?)
      && (b.reliable ==> !r.ListFailed?)
      && (r.Panicked? || r.ListFailed? ==> gone == {})
      && (|backups| - keep > MAX_KEYS ==> !r.Pruned? && gone == {})
      && (b.reliable && keep >= 0 && |backups| - keep <= MAX_KEYS ==> r.Pruned? && missed == {})
  {
    var listed := ListBackups(b);
    if listed.None? {
      assert b.objects == b.objects - {};
      return ListFailed, {}, {};
    }
    ghost var before := b.objects.Keys;
    r, gone, missed := DeleteOldest(b, listed.value, keep);
    PrunedSurplus(before, keep, r, gone, missed);
  }

  /** What pruning to keep does to the sorted keys of the backups. */
  ghost predicate PrunedKeys(keys: seq<string>, keep: int, r: PruneResult, gone: set<string>, missed: set<string>) {
    && gone !! missed && !r.ListFailed? && (r.Panicked? <==> keep < 0)
    && (r.Panicked? || |keys| <= keep ==> gone + missed == {})
    && (|keys| <= keep ==> r == Pruned(0))
    && (0 <= keep < |keys| ==> gone + missed <= Elements(keys[..|keys| - keep]))
    && (r.Pruned? && keep < |keys| ==>
          r.n == |keys| - keep && gone + missed == Elements(keys[..|keys| - keep]))
    && (|keys| - keep > MAX_KEYS ==> !r.Pruned? && gone == {})
  }

  lemma PrunedSurplus(objects: set<string>, keep: int, r: PruneResult, gone: set<string>, missed: set<string>)
    requires PrunedKeys(Sorted(Under(objects, BACKUPS)), keep, r, gone, missed)
    ensures |Sorted(Under(objects, BACKUPS))| == |Under(objects, BACKUPS)|
    ensures keep >= 0 ==> gone + missed <= Surplus(objects, keep)
    ensures r.Pruned? ==> gone + missed == Surplus(objects, keep)
  {
  }

  /** The batch deletion of PruneDBBackups over the sorted keys. */
  method DeleteOldest(b: Bucket, keys: seq<string>, keep: int)
      returns (r: PruneResult, ghost gone: set<string>, ghost missed: set<string>)
    modifies b
    ensures b.objects == old(b.objects) - gone
    ensures PrunedKeys(keys, keep, r, gone, missed)
    ensures b.reliable && keep >= 0 && |keys| - keep <= MAX_KEYS ==> r.Pruned? && missed == {}
  {
    gone, missed := {}, {};
    assert b.objects - gone == b.objects;
    if |keys| <= keep { return Pruned(0), gone, missed; }
    var prune := |keys| - keep;
    var objs := Take(keys, prune);
    if objs.None? { return Panicked, gone, missed; }
    var reply, went := b.DeleteObjects(objs.value);
    gone := went;
    if !reply.Deleted? { return DeleteFailed(0), gone, missed; }
    missed := reply.errors;
    r := Pruned(prune);
  }

  /** The loop that collects the first n keys; None is the index panic. */
  method Take(keys: seq<string>, n: nat) returns (r: Option<seq<string>>)
    ensures r == if n <= |keys| then Some(keys[..n]) else None
  {
    var objs: seq<string> := [];
    var i := 0;
    while i < n
      invariant 0 <= i <= |keys| && i <= n
      invariant objs == keys[..i]
    {
      if i >= |keys| { return None; }
      objs := objs + [keys[i]];
      i := i + 1;
    }
    r := Some(objs);
  }

  datatype Latest = Latest(key: string) | NoBackup | LatestFailed

  /** LatestDBBackupKey: the last of the sorted backup keys. */
  method LatestDBBackupKey(b: Bucket) returns (r: Latest)
    ensures r.NoBackup? ==> Under(b.objects.Keys, BACKUPS) == {}
    ensures b.reliable ==> !r.LatestFailed?
    ensures r.Latest? ==> IsGreatest(r.key, Under(b.objects.Keys, BACKUPS))
  {
    var listed := ListBackups(b);
    if listed.None? { return LatestFailed; }
    var keys := listed.value;
    NoElements(keys);
    if |keys| == 0 { return NoBackup; }
    LastIsGreatest(Under(b.objects.Keys, BACKUPS));
    r := Latest(keys[|keys| - 1]);
  }

  ghost predicate IsGreatest(m: string, keys: set<string>) {
    m in keys && forall k :: k in keys ==> AtMost(k, m)
  }

  lemma LastIsGreatest(keys: set<string>)
    requires keys != {}
    ensures |Sorted(keys)| > 0 && IsGreatest(Sorted(keys)[|Sorted(keys)| - 1], keys)
  {
    var sorted := Sorted(keys);
    NoElements(sorted);
    var last := sorted[|sorted| - 1];
    assert last in Elements(sorted);
    forall k | k in keys ensures AtMost(k, last) {
      assert k in Elements(sorted);
      var i :| 0 <= i < |sorted| && sorted[i] == k;
    }
  }

  lemma GreatestUnique(m: string, n: string, keys: set<string>)
    requires IsGreatest(m, keys) && IsGreatest(n, keys)
    ensures m == n
  {
    if m != n {
      LessAsymmetric(m, n);
    }
  }

  /** Pruning with keep at least 1 never reaches the newest backup. */
  lemma NewestBackupSurvives(objects: set<string>, keep: nat, newest: string)
    requires keep >= 1 && IsGreatest(newest, Under(objects, BACKUPS))
    ensures newest !in Surplus(objects, keep)
  {
    var sorted := Sorted(Under(objects, BACKUPS));
    LastIsGreatest(Under(objects, BACKUPS));
    GreatestUnique(newest, sorted[|sorted| - 1], Under(objects, BACKUPS));
    AscendingIsDistinct(sorted);
  }

  /** A complete pruning leaves exactly the min(keep, n) newest backups. */
  lemma PruningKeepsNewestBackups(objects: set<string>, keep: nat)
    ensures
      var before := Under(objects, BACKUPS);
      var left := Under(objects - Surplus(objects, keep), BACKUPS);
      && |left| == (if keep < |before| then keep else |before|)
      && left + Surplus(objects, keep) == before
      && (forall k, g :: k in left && g in Surplus(objects, keep) ==> Less(g, k))
  {
    var before := Under(objects, BACKUPS);
    var sorted := Sorted(before);
    var left := Under(objects - Surplus(objects, keep), BACKUPS);
    if |sorted| <= keep {
      assert left == before;
    } else {
      var n := |sorted| - keep;
      SuffixOfSorted(before, n);
      assert left == Elements(sorted[n..]);
    }
  }

  lemma SuffixOfSorted(keys: set<string>, n: nat)
    requires n <= |keys|
    ensures
      var sorted := Sorted(keys);
      && Elements(sorted[..n]) + Elements(sorted[n..]) == keys
      && Elements(sorted[..n]) !! Elements(sorted[n..])
      && |Elements(sorted[n..])| == |keys| - n
      && (forall g, k :: g in sorted[..n] && k in sorted[n..] ==> Less(g, k))
  {
    var sorted := Sorted(keys);
    AscendingIsDistinct(sorted);
    assert sorted == sorted[..n] + sorted[n..];
    ElementsOfConcat(sorted[..n], sorted[n..]);
    assert Ascending(sorted[n..]);
    AscendingUnique(sorted[n..], Sorted(Elements(sorted[n..])));
  }

  /** A new newest backup followed by a complete pruning leaves the min(keep, n + 1)
      newest, the new one among them. */
  lemma BackupThenPrune(objects: set<string>, added: string, keep: nat)
    requires keep >= 1 && HasPrefix(added, BACKUPS) && added !in objects
    requires forall k :: k in Under(objects, BACKUPS) ==> Less(k, added)
    ensures
      var before := Under(objects, BACKUPS);
      var after := objects + {added};
      var left := Under(after - Surplus(after, keep), BACKUPS);
      && |left| == (if keep < |before| + 1 then keep else |before| + 1)
      && IsGreatest(added, left) && left + Surplus(after, keep) == before + {added}
      && (forall k, g :: k in left && g in Surplus(after, keep) ==> Less(g, k))
  {
    var before := Under(objects, BACKUPS);
    var after := objects + {added};
    assert Under(after, BACKUPS) == before + {added};
    PruningKeepsNewestBackups(after, keep);
    NewestBackupSurvives(after, keep, added);
  }

  lemma PutThenPrune(bucket: Objects, added: string, c: Content, keep: nat)
    requires keep >= 1 && HasPrefix(added, BACKUPS) && added !in bucket
    requires forall k :: k in Under(bucket.Keys, BACKUPS) ==> Less(k, added)
    ensures
      var put := bucket[added := c];
      var left := Under((put - Surplus(put.Keys, keep)).Keys, BACKUPS);
      var n := |Under(bucket.Keys, BACKUPS)| + 1;
      && |left| == (if keep < n then keep else n)
      && IsGreatest(added, left) && left + Surplus(put.Keys, keep) == Under(bucket.Keys, BACKUPS) + {added}
      && (forall k, g :: k in left && g in Surplus(put.Keys, keep) ==> Less(g, k))
  {
    var put := bucket[added := c];
    assert put.Keys == bucket.Keys + {added};
    BackupThenPrune(bucket.Keys, added, keep);
    KeysLeft(put, Surplus(put.Keys, keep));
  }

  lemma KeysLeft(objects: Objects, gone: set<string>)
    ensures (objects - gone).Keys == objects.Keys - gone
  {
  }
}
