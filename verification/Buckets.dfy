/** The object store, as the publisher's requests see it.

    Any request may fail.  A failed request may still have taken effect, in
    whole or, for a batch deletion, in part; a batch deletion that is reported
    as successful may carry per-key errors, which the program does not read. */
module Buckets {
  import opened Text
  import opened Store

  /** The most keys one listing page or one batch deletion may name. */
  const MAX_KEYS: nat := 1000

  ghost function Under(keys: set<string>, prefix: string): set<string> {
    set k | k in keys && HasPrefix(k, prefix)
  }

  predicate After(k: string, token: Option<string>) {
    token.None? || Less(token.value, k)
  }

  ghost function Beyond(entries: set<string>, token: Option<string>): set<string> {
    set k | k in entries && After(k, token)
  }

  datatype Page = Page(keys: seq<string>, more: bool)

  /** A listing page: the next entries after the token, in ascending order.
      The store chooses how many, at most MAX_KEYS, and says whether more follow. */
  ghost predicate IsPage(page: Page, entries: set<string>, token: Option<string>) {
    && Ascending(page.keys)
    && |page.keys| <= MAX_KEYS
    && Elements(page.keys) <= Beyond(entries, token)
    && AllBefore(page.keys, Beyond(entries, token) - Elements(page.keys))
    && (page.more <==> Elements(page.keys) != Beyond(entries, token))
    && (page.more ==> page.keys != [])
  }

  lemma PageOfStart(entries: set<string>, token: Option<string>, keys: seq<string>, rest: set<string>)
    requires Ascending(keys) && |keys| <= MAX_KEYS && AllBefore(keys, rest)
    requires Elements(keys) + rest == Beyond(entries, token)
    requires rest != {} ==> keys != []
    ensures IsPage(Page(keys, rest != {}), entries, token)
  {
    forall k | k in rest ensures k !in Elements(keys) {
      LessIrreflexive(k);
    }
    assert Beyond(entries, token) - Elements(keys) == rest;
  }

  datatype Reply = Deleted(errors: set<string>) | Malformed | Unavailable

  /** As many of the least keys as the store cares to put on one page. */
  method FirstKeys(todo: set<string>) returns (keys: seq<string>, rest: set<string>)
    ensures Ascending(keys) && |keys| <= MAX_KEYS && AllBefore(keys, rest)
    ensures Elements(keys) + rest == todo
    ensures rest != {} ==> keys != []
  {
    keys, rest := [], todo;
    while rest != {} && |keys| < MAX_KEYS
      invariant Ascending(keys) && |keys| <= MAX_KEYS && AllBefore(keys, rest)
      invariant Elements(keys) + rest == todo
      decreases |rest|
    {
      var full: bool := *;
      if full && keys != [] { break; }
      LeastExists(rest);
      var m :| m in rest && forall k :: k in rest ==> AtMost(m, k);
      AppendLeast(keys, m, rest);
      keys, rest := keys + [m], rest - {m};
    }
  }

  class Bucket {
    var objects: Objects
    /** Well-formed requests never fail. */
    const reliable: bool

    constructor (reliable: bool)
      ensures objects == map[] && this.reliable == reliable
    {
      this.objects, this.reliable := map[], reliable;
    }

    /** One page of a listing of the given entries. */
    method ListPage(entries: set<string>, token: Option<string>) returns (r: Option<Page>)
      ensures r.Some? ==> IsPage(r.value, entries, token)
      ensures reliable ==> r.Some?
    {
      var ok: bool := *;
      if !ok && !reliable { return None; }
      var todo := set k | k in entries && After(k, token);
      var keys, rest := FirstKeys(todo);
      PageOfStart(entries, token, keys, rest);
      r := Some(Page(keys, rest != {}));
    }

    /** DeleteObjects: one batch deletion. */
    method DeleteObjects(keys: seq<string>) returns (r: Reply, ghost gone: set<string>)
      modifies this
      ensures objects == old(objects) - gone && gone <= Elements(keys)
      ensures r.Malformed? <==> |keys| == 0 || |keys| > MAX_KEYS
      ensures r.Malformed? ==> gone == {}
      ensures r.Deleted? ==> r.errors <= Elements(keys) && gone == Elements(keys) - r.errors
      ensures reliable && !r.Malformed? ==> r == Deleted({})
    {
      var named := set k | k in keys;
      assert named == Elements(keys);
      if |keys| == 0 || |keys| > MAX_KEYS {
        assert objects == objects - {};
        return Malformed, {};
      }
      var kept: set<string> := *;
      if reliable { kept := {}; }
      objects := objects - (named - kept);
      gone := named - kept;
      var answered: bool := *;
      r := if answered || reliable then Deleted(named * kept) else Unavailable;
    }
  }

  /** The paginator loop of a read-only listing: page after page until the
      store reports that none is left. */
  method ListAll(b: Bucket, entries: set<string>) returns (r: Option<seq<string>>)
    ensures r.Some? ==> Ascending(r.value) && Elements(r.value) == entries
    ensures b.reliable ==> r.Some?
  {
    var keys: seq<string> := [];
    var token: Option<string> := None;
    var more := true;
    assert Beyond(entries, token) == entries;
    while more
      invariant ListedTo(keys, entries, token)
      invariant !more ==> Beyond(entries, token) == {}
      decreases |Beyond(entries, token)| + if more then 1 else 0
    {
      var p := b.ListPage(entries, token);
      if p.None? { return None; }
      AppendPage(keys, entries, token, p.value);
      keys := keys + p.value.keys;
      token := NextOf(token, p.value);
      more := p.value.more;
    }
    r := Some(keys);
  }

  lemma LastOfPage(keys: seq<string>)
    requires Ascending(keys) && keys != []
    ensures forall k :: k in keys ==> AtMost(k, keys[|keys| - 1]) && !Less(keys[|keys| - 1], k)
  {
    var last := keys[|keys| - 1];
    LessIrreflexive(last);
    forall k | k in keys ensures AtMost(k, last) && !Less(last, k) {
      if k != last {
        LessAsymmetric(k, last);
      }
    }
  }

  lemma BeyondFarther(entries: set<string>, token: Option<string>, last: string)
    requires last in Beyond(entries, token)
    ensures Beyond(entries, Some(last)) <= Beyond(entries, token) - {last}
  {
    LessIrreflexive(last);
    forall k | k in Beyond(entries, Some(last)) ensures k in Beyond(entries, token) - {last} {
      if token.Some? {
        LessTransitive(token.value, last, k);
      }
    }
  }

  /** What the last key of a page, used as the next token, leaves to list. */
  lemma NextToken(entries: set<string>, token: Option<string>, page: Page)
    requires IsPage(page, entries, token) && page.keys != []
    ensures
      var next := Some(page.keys[|page.keys| - 1]);
      && Beyond(entries, next) == Beyond(entries, token) - Elements(page.keys)
      && |Beyond(entries, next)| < |Beyond(entries, token)|
  {
    var last := page.keys[|page.keys| - 1];
    LastOfPage(page.keys);
    assert last in Elements(page.keys);
    BeyondFarther(entries, token, last);
    forall k | k in Beyond(entries, Some(last)) ensures k !in Elements(page.keys) {
    }
    forall k | k in Beyond(entries, token) - Elements(page.keys) ensures k in Beyond(entries, Some(last)) {
      assert last in page.keys;
      assert Less(last, k);
    }
    SubsetSize(Beyond(entries, Some(last)), Beyond(entries, token) - {last});
  }

  lemma {:induction false} SubsetSize<T>(a: set<T>, b: set<T>)
    requires a <= b
    ensures |a| <= |b|
    ensures a != b ==> |a| < |b|
  {
    if a == {} {
    } else {
      var x :| x in a;
      SubsetSize(a - {x}, b - {x});
    }
  }

  /** How far the paginator has come: keys holds the entries up to the token. */
  ghost predicate ListedTo(keys: seq<string>, entries: set<string>, token: Option<string>) {
    && Ascending(keys)
    && Elements(keys) == entries - Beyond(entries, token)
    && (token.None? ==> keys == [])
    && (token.Some? ==> forall k :: k in keys ==> AtMost(k, token.value))
  }

  function NextOf(token: Option<string>, page: Page): Option<string> {
    if page.keys == [] then token else Some(page.keys[|page.keys| - 1])
  }

  lemma PageComesAfter(keys: seq<string>, entries: set<string>, token: Option<string>, page: Page)
    requires ListedTo(keys, entries, token) && IsPage(page, entries, token)
    ensures forall x, y :: x in keys && y in page.keys ==> Less(x, y)
  {
    forall x, y | x in keys && y in page.keys ensures Less(x, y) {
      assert y in Elements(page.keys);
      assert After(y, token);
      if x != token.value {
        LessTransitive(x, token.value, y);
      }
    }
  }

  lemma AllUpToLast(keys: seq<string>, page: seq<string>)
    requires Ascending(page) && page != []
    requires forall x, y :: x in keys && y in page ==> Less(x, y)
    ensures forall k :: k in keys + page ==> AtMost(k, page[|page| - 1])
  {
    LastOfPage(page);
    assert page[|page| - 1] in page;
    forall k | k in keys + page ensures AtMost(k, page[|page| - 1]) {
      assert k in keys || k in page;
    }
  }

  lemma AppendPage(keys: seq<string>, entries: set<string>, token: Option<string>, page: Page)
    requires ListedTo(keys, entries, token) && IsPage(page, entries, token)
    ensures ListedTo(keys + page.keys, entries, NextOf(token, page))
    ensures !page.more ==> Beyond(entries, NextOf(token, page)) == {}
    ensures page.more ==> |Beyond(entries, NextOf(token, page))| < |Beyond(entries, token)|
    ensures !page.more ==> |Beyond(entries, NextOf(token, page))| <= |Beyond(entries, token)|
  {
    NoElements(page.keys);
    if page.keys == [] {
      assert keys + page.keys == keys;
    } else {
      NextToken(entries, token, page);
      AppendFullPage(keys, entries, token, page);
    }
  }

  lemma AppendFullPage(keys: seq<string>, entries: set<string>, token: Option<string>, page: Page)
    requires ListedTo(keys, entries, token) && IsPage(page, entries, token) && page.keys != []
    ensures ListedTo(keys + page.keys, entries, NextOf(token, page))
  {
    assert Ascending(keys + page.keys) && forall k :: k in keys + page.keys ==> AtMost(k, page.keys[|page.keys| - 1]) by {
      PageComesAfter(keys, entries, token, page);
      AscendingConcat(keys, page.keys);
      AllUpToLast(keys, page.keys);
    }
    NextToken(entries, token, page);
    ElementsOfConcat(keys, page.keys);
    ListedToNext(keys, entries, token, page);
  }

  lemma ListedToNext(keys: seq<string>, entries: set<string>, token: Option<string>, page: Page)
    requires page.keys != [] && Ascending(keys + page.keys)
    requires Elements(keys) == entries - Beyond(entries, token)
    requires Elements(page.keys) <= Beyond(entries, token)
    requires Elements(keys + page.keys) == Elements(keys) + Elements(page.keys)
    requires Beyond(entries, NextOf(token, page)) == Beyond(entries, token) - Elements(page.keys)
    requires forall k :: k in keys + page.keys ==> AtMost(k, page.keys[|page.keys| - 1])
    ensures ListedTo(keys + page.keys, entries, NextOf(token, page))
  {
  }
}
