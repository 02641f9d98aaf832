/** Text order and text searching.

    The order is the one Go's sort.Strings uses and the one in which an S3
    listing returns keys: plain lexicographic order on the characters. */
module Text {

  /** Strict lexicographic order. */
  predicate Less(a: string, b: string) {
    if |b| == 0 then false
    else if |a| == 0 then true
    else a[0] < b[0] || (a[0] == b[0] && Less(a[1..], b[1..]))
  }

  predicate AtMost(a: string, b: string) {
    a == b || Less(a, b)
  }

  lemma {:induction false} LessIrreflexive(a: string)
    ensures !Less(a, a)
  {
    if a != [] {
      LessIrreflexive(a[1..]);
    }
  }

  lemma {:induction false} LessTransitive(a: string, b: string, c: string)
    requires Less(a, b) && Less(b, c)
    ensures Less(a, c)
  {
    if |a| > 0 && a[0] == b[0] && b[0] == c[0] {
      LessTransitive(a[1..], b[1..], c[1..]);
    }
  }

  lemma {:induction false} LessTotal(a: string, b: string)
    ensures a == b || Less(a, b) || Less(b, a)
  {
    if |a| > 0 && |b| > 0 && a[0] == b[0] {
      LessTotal(a[1..], b[1..]);
      if a[1..] == b[1..] {
        assert a == [a[0]] + a[1..] && b == [b[0]] + b[1..];
      }
    }
  }

  lemma LessAsymmetric(a: string, b: string)
    requires Less(a, b)
    ensures !Less(b, a) && a != b
  {
    if Less(b, a) {
      LessTransitive(a, b, a);
    }
    LessIrreflexive(a);
  }

  /** A common prefix does not influence the order. */
  lemma {:induction false} LessCommonPrefix(p: string, a: string, b: string)
    ensures Less(p + a, p + b) == Less(a, b)
  {
    if p == [] {
      assert p + a == a && p + b == b;
    } else {
      assert (p + a)[1..] == p[1..] + a && (p + b)[1..] == p[1..] + b;
      LessCommonPrefix(p[1..], a, b);
    }
  }

  /** Two different fields of equal width decide the order by themselves. */
  lemma {:induction false} LessFixedWidth(a: string, x: string, b: string, y: string)
    requires |a| == |b| && a != b
    ensures Less(a + x, b + y) == Less(a, b)
  {
    assert (a + x)[1..] == a[1..] + x && (b + y)[1..] == b[1..] + y;
    if a[0] == b[0] {
      assert a == [a[0]] + a[1..] && b == [b[0]] + b[1..];
      LessFixedWidth(a[1..], x, b[1..], y);
    }
  }

  /** A text that does not begin with p compares with all that do as with p. */
  lemma {:induction false} LessByPrefix(p: string, x: string, s: string)
    requires !HasPrefix(s, p)
    ensures Less(p + x, s) <==> Less(p, s)
    ensures Less(s, p + x) <==> Less(s, p)
  {
    if s != [] && p[0] == s[0] {
      assert (p + x)[1..] == p[1..] + x;
      PrefixStep(s, p);
      LessByPrefix(p[1..], x, s[1..]);
    }
  }

  lemma PrefixStep(s: string, p: string)
    requires s != [] && p != [] && s[0] == p[0]
    ensures HasPrefix(s, p) <==> HasPrefix(s[1..], p[1..])
  {
    if |p| <= |s| {
      assert s[..|p|] == [s[0]] + s[1..][..|p| - 1] && p == [p[0]] + p[1..];
    }
  }

  predicate HasPrefix(s: string, p: string) {
    |p| <= |s| && s[..|p|] == p
  }

  predicate Contains(s: string, p: string) {
    exists i :: 0 <= i <= |s| && HasPrefix(s[i..], p)
  }

  lemma ContainsMeans(s: string, p: string)
    ensures Contains(s, p) <==> exists a: string, b: string :: s == a + p + b
  {
    if Contains(s, p) {
      var i :| 0 <= i <= |s| && HasPrefix(s[i..], p);
      assert s == s[..i] + p + s[i + |p|..];
    }
    if a: string, b: string :| s == a + p + b {
      assert s[|a|..] == p + b;
      assert HasPrefix(s[|a|..], p);
    }
  }

  /** The position of the first c in s, or |s| when there is none. */
  function IndexOf(s: string, c: char): (i: nat)
    ensures i <= |s|
    ensures i < |s| ==> s[i] == c
    ensures c !in s[..i]
  {
    if s == [] || s[0] == c then 0
    else
      var j := IndexOf(s[1..], c);
      assert s[..j + 1] == [s[0]] + s[1..][..j];
      j + 1
  }

  lemma IndexOfAt(s: string, c: char, i: nat)
    requires i < |s| && s[i] == c && c !in s[..i]
    ensures IndexOf(s, c) == i
  {
    var j := IndexOf(s, c);
    assert forall k :: 0 <= k < i ==> s[..i][k] == s[k];
    assert forall k :: 0 <= k < j ==> s[..j][k] == s[k];
  }

  /** The characters strings.TrimSpace removes, restricted to ASCII. */
  predicate IsSpace(c: char) {
    c == ' ' || c == '\t' || c == '\n' || c == '\r' || c as int == 11 || c as int == 12
  }

  /** Tab, line feed, vertical tab, form feed, carriage return and space. */
  lemma SpacesAre(c: char)
    ensures IsSpace(c) <==> 9 <= c as int <= 13 || c as int == 32
  {
  }

  function TrimLeft(s: string): (r: string)
    ensures r == [] || !IsSpace(r[0])
    ensures exists n :: 0 <= n <= |s| && r == s[n..] && forall i :: 0 <= i < n ==> IsSpace(s[i])
  {
    if s == [] || !IsSpace(s[0]) then
      assert s == s[0..];
      s
    else
      var r := TrimLeft(s[1..]);
      assert exists n :: 0 <= n <= |s| && r == s[n..] && forall i :: 0 <= i < n ==> IsSpace(s[i]) by {
        var n :| 0 <= n <= |s[1..]| && r == s[1..][n..] && forall i :: 0 <= i < n ==> IsSpace(s[1..][i]);
        assert r == s[n + 1..];
        assert forall i :: 0 <= i < n + 1 ==> i == 0 || s[i] == s[1..][i - 1];
      }
      r
  }

  function TrimRight(s: string): (r: string)
    ensures r == [] || !IsSpace(r[|r| - 1])
    ensures r <= s
  {
    if s == [] || !IsSpace(s[|s| - 1]) then s else TrimRight(s[..|s| - 1])
  }

  /** strings.TrimSpace. */
  function Trim(s: string): (r: string)
    ensures r == [] || (!IsSpace(r[0]) && !IsSpace(r[|r| - 1]))
    ensures |s| > 0 && !IsSpace(s[0]) && !IsSpace(s[|s| - 1]) ==> r == s
  {
    TrimRight(TrimLeft(s))
  }

  predicate AllSpace(s: string) {
    forall i :: 0 <= i < |s| ==> IsSpace(s[i])
  }

  lemma {:induction false} TrimLeftPadded(l: string, s: string)
    requires AllSpace(l)
    ensures TrimLeft(l + s) == TrimLeft(s)
  {
    if l == [] {
      assert l + s == s;
    } else {
      assert (l + s)[1..] == l[1..] + s;
      TrimLeftPadded(l[1..], s);
    }
  }

  lemma {:induction false} TrimRightPadded(s: string, r: string)
    requires AllSpace(r)
    ensures TrimRight(s + r) == TrimRight(s)
  {
    if r == [] {
      assert s + r == s;
    } else {
      var n := |r| - 1;
      assert (s + r)[..|s| + n] == s + r[..n];
      TrimRightPadded(s, r[..n]);
    }
  }

  /** Trimming on the right keeps a first character that is not space. */
  lemma {:induction false} FirstStays(s: string)
    requires s != [] && !IsSpace(s[0])
    ensures TrimRight(s) != [] && TrimRight(s)[0] == s[0]
  {
    if IsSpace(s[|s| - 1]) {
      FirstStays(s[..|s| - 1]);
    }
  }

  lemma TrimKeepsOut(s: string, c: char)
    requires c !in s
    ensures c !in Trim(s)
  {
    var l, t := TrimLeft(s), Trim(s);
    var n :| 0 <= n <= |s| && l == s[n..];
    assert t <= l;
    forall i | 0 <= i < |t| ensures t[i] != c {
      assert t[i] == l[i] == s[n + i];
    }
  }

  /** What is trimmed to nothing is all space. */
  lemma TrimsToNothing(s: string)
    ensures Trim(s) == "" <==> AllSpace(s)
  {
    if AllSpace(s) {
      TrimPadded(s, [], []);
      assert s + [] + [] == s;
    } else {
      var i :| 0 <= i < |s| && !IsSpace(s[i]);
      var n :| 0 <= n <= |s| && TrimLeft(s) == s[n..] && forall j :: 0 <= j < n ==> IsSpace(s[j]);
      FirstStays(TrimLeft(s));
    }
  }

  /** Trimming takes away exactly the space at either end. */
  lemma TrimPadded(l: string, s: string, r: string)
    requires AllSpace(l) && AllSpace(r)
    requires s == [] || (!IsSpace(s[0]) && !IsSpace(s[|s| - 1]))
    ensures Trim(l + s + r) == s
  {
    assert l + s + r == l + (s + r);
    TrimLeftPadded(l, s + r);
    if s == [] {
      assert s + r == r && r + [] == r;
      TrimLeftPadded(r, []);
    } else {
      TrimRightPadded(s, r);
    }
  }

  // ---- ascending listings of a set of keys --------------------------------

  /** Strictly ascending, hence without duplicates. */
  ghost predicate Ascending(s: seq<string>) {
    forall i, j :: 0 <= i < j < |s| ==> Less(s[i], s[j])
  }

  ghost function Elements(s: seq<string>): set<string> {
    set k | k in s
  }

  ghost predicate IsLeast(m: string, keys: set<string>) {
    m in keys && forall k :: k in keys ==> AtMost(m, k)
  }

  lemma {:induction false} LeastExists(keys: set<string>)
    requires keys != {}
    ensures exists m :: IsLeast(m, keys)
  {
    var x :| x in keys;
    var rest := keys - {x};
    if rest == {} {
      assert keys == {x};
      assert IsLeast(x, keys);
    } else {
      LeastExists(rest);
      var m :| IsLeast(m, rest);
      LessTotal(x, m);
      if Less(x, m) {
        forall k | k in keys ensures AtMost(x, k) {
          if k != x && k != m {
            assert k in rest;
            LessTransitive(x, m, k);
          }
        }
        assert IsLeast(x, keys);
      } else {
        assert IsLeast(m, keys);
      }
    }
  }

  lemma PrependLeast(m: string, rest: seq<string>, keys: set<string>)
    requires IsLeast(m, keys) && Ascending(rest) && Elements(rest) == keys - {m}
    ensures Ascending([m] + rest) && Elements([m] + rest) == keys
  {
    var s := [m] + rest;
    forall i, j | 0 <= i < j < |s| ensures Less(s[i], s[j]) {
      assert rest[j - 1] in Elements(rest);
      assert AtMost(m, rest[j - 1]);
    }
    assert forall k :: k in rest <==> k in Elements(rest);
    assert forall k :: k in s <==> k == m || k in rest;
  }

  /** The one ascending listing of a set of keys. */
  ghost function Sorted(keys: set<string>): (s: seq<string>)
    ensures Ascending(s) && Elements(s) == keys && |s| == |keys|
    decreases |keys|
  {
    if keys == {} then []
    else
      LeastExists(keys);
      var m :| IsLeast(m, keys);
      var rest := Sorted(keys - {m});
      PrependLeast(m, rest, keys);
      [m] + rest
  }

  lemma NoElements(s: seq<string>)
    ensures s == [] <==> Elements(s) == {}
  {
    if s != [] {
      assert s[0] in Elements(s);
    }
  }

  /** An ascending listing is determined by its elements. */
  lemma {:induction false} AscendingUnique(s: seq<string>, t: seq<string>)
    requires Ascending(s) && Ascending(t) && Elements(s) == Elements(t)
    ensures s == t
  {
    assert forall k :: k in s <==> k in Elements(s);
    assert forall k :: k in t <==> k in Elements(t);
    NoElements(s);
    NoElements(t);
    if s != [] && t != [] {
      assert s[0] in s && t[0] in t;
      if s[0] != t[0] {
        LessAsymmetric(s[0], t[0]);
        assert false;
      }
      LessIrreflexive(s[0]);
      assert s == [s[0]] + s[1..] && t == [t[0]] + t[1..];
      assert s[0] !in s[1..] && t[0] !in t[1..];
      assert forall k :: k in s[1..] <==> k in s && k != s[0];
      assert forall k :: k in t[1..] <==> k in t && k != t[0];
      assert Elements(s[1..]) == Elements(t[1..]);
      AscendingUnique(s[1..], t[1..]);
    }
  }

  ghost predicate Distinct(s: seq<string>) {
    forall i, j :: 0 <= i < j < |s| ==> s[i] != s[j]
  }

  lemma AscendingIsDistinct(s: seq<string>)
    requires Ascending(s)
    ensures Distinct(s)
  {
    forall i, j | 0 <= i < j < |s| ensures s[i] != s[j] {
      LessIrreflexive(s[i]);
    }
  }

  lemma ElementsOfConcat(s: seq<string>, t: seq<string>)
    ensures Elements(s + t) == Elements(s) + Elements(t)
  {
  }

  lemma AscendingStep(s: seq<string>, i: nat)
    requires Ascending(s) && i < |s|
    ensures Elements(s[..i + 1]) == Elements(s[..i]) + {s[i]}
    ensures s[i] !in Elements(s[..i])
  {
    AscendingIsDistinct(s);
    assert s[..i + 1] == s[..i] + [s[i]];
  }

  lemma AscendingConcat(s: seq<string>, t: seq<string>)
    requires Ascending(s) && Ascending(t)
    requires forall x, y :: x in s && y in t ==> Less(x, y)
    ensures Ascending(s + t)
  {
    var st := s + t;
    forall i, j | 0 <= i < j < |st| ensures Less(st[i], st[j]) {
      if i < |s| <= j {
        assert st[i] in s && st[j] in t;
      }
    }
  }

  /** s lists the keys below all those of rest. */
  ghost predicate AllBefore(s: seq<string>, rest: set<string>) {
    forall x, y :: x in s && y in rest ==> Less(x, y)
  }

  lemma AppendLeast(s: seq<string>, m: string, rest: set<string>)
    requires Ascending(s) && AllBefore(s, rest) && IsLeast(m, rest)
    ensures Ascending(s + [m]) && AllBefore(s + [m], rest - {m})
    ensures Elements(s + [m]) == Elements(s) + {m}
    ensures m !in s
  {
    AscendingConcat(s, [m]);
    ElementsOfConcat(s, [m]);
    assert Elements([m]) == {m};
    LessIrreflexive(m);
    forall y | y in rest - {m} ensures Less(m, y) {
      assert AtMost(m, y);
    }
  }

  /** The keys of a set in ascending order, by selection. */
  method SortSet(keys: set<string>) returns (s: seq<string>)
    ensures s == Sorted(keys)
  {
    s := [];
    var rest := keys;
    while rest != {}
      invariant Ascending(s) && AllBefore(s, rest)
      invariant Elements(s) + rest == keys
      decreases |rest|
    {
      LeastExists(rest);
      var m :| m in rest && forall k :: k in rest ==> AtMost(m, k);
      AppendLeast(s, m, rest);
      s := s + [m];
      rest := rest - {m};
    }
    AscendingUnique(s, Sorted(keys));
  }

  /** sort.Strings on keys without duplicates. */
  method SortStrings(keys: seq<string>) returns (s: seq<string>)
    requires Distinct(keys)
    ensures s == Sorted(Elements(keys))
  {
    var named := set k | k in keys;
    assert named == Elements(keys);
    s := SortSet(named);
  }
}
