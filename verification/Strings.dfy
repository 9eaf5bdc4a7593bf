/** The string operations the attribute code is built from, with the laws that make printing and parsing meet. */
module Strings {

  function Split(s: string, sep: char): (parts: seq<string>)
    ensures parts != []
  {
    if s == "" then [""]
    else
      var rest := Split(s[1..], sep);
      if s[0] == sep then [""] + rest else [[s[0]] + rest[0]] + rest[1..]
  }

  function Join(parts: seq<string>, sep: string): string {
    if parts == [] then ""
    else if |parts| == 1 then parts[0]
    else parts[0] + sep + Join(parts[1..], sep)
  }

  predicate Contains(s: string, t: string) {
    exists i | 0 <= i <= |s| :: t <= s[i..]
  }

  predicate HasSuffix(s: string, c: char) {
    s != "" && s[|s| - 1] == c
  }

  /** White space as Unicode defines it. */
  predicate IsSpace(c: char) {
    || c in "\t\n\U{b}\U{c}\r \U{85}\U{a0}\U{1680}\U{2028}\U{2029}\U{202f}\U{205f}\U{3000}"
    || '\U{2000}' <= c <= '\U{200a}'
  }

  function TrimLeft(s: string): string {
    if s != "" && IsSpace(s[0]) then TrimLeft(s[1..]) else s
  }

  function TrimRight(s: string): string {
    if s != "" && IsSpace(s[|s| - 1]) then TrimRight(s[..|s| - 1]) else s
  }

  function TrimSpace(s: string): string {
    TrimRight(TrimLeft(s))
  }

  // ---------------------------------------------------------------- splitting

  lemma {:induction false} SplitAtSeparator(a: string, sep: char, b: string)
    ensures Split(a + [sep] + b, sep) == Split(a, sep) + Split(b, sep)
  {
    if a == "" {
      assert (a + [sep] + b)[1..] == b;
    } else {
      assert (a + [sep] + b)[1..] == a[1..] + [sep] + b;
      SplitAtSeparator(a[1..], sep, b);
    }
  }

  lemma {:induction false} SplitWithoutSeparator(s: string, sep: char)
    requires sep !in s
    ensures Split(s, sep) == [s]
  {
    if s != "" {
      SplitWithoutSeparator(s[1..], sep);
      assert [s[0]] + s[1..] == s;
    }
  }

  lemma {:induction false} PartsAreFree(s: string, sep: char)
    ensures forall p | p in Split(s, sep) :: sep !in p
  {
    if s != "" {
      PartsAreFree(s[1..], sep);
      var rest := Split(s[1..], sep);
      assert rest[0] in rest;
    }
  }

  /** Every character of a part comes from the string. */
  lemma {:induction false} PartsComeFrom(s: string, sep: char, c: char)
    requires c !in s
    ensures forall p | p in Split(s, sep) :: c !in p
  {
    if s != "" {
      PartsComeFrom(s[1..], sep, c);
      var rest := Split(s[1..], sep);
      assert rest[0] in rest;
    }
  }

  lemma {:induction false} JoinOfSplit(s: string, sep: char)
    ensures Join(Split(s, sep), [sep]) == s
  {
    if s != "" {
      JoinOfSplit(s[1..], sep);
      var rest := Split(s[1..], sep);
      var parts := Split(s, sep);
      if s[0] == sep {
        assert parts[1..] == rest;
      } else if |rest| > 1 {
        assert parts[1..] == rest[1..];
      }
    }
  }

  // ---------------------------------------------------------------- containment

  lemma ContainedInConcatenation(a: string, b: string, t: string)
    requires Contains(a, t) || Contains(b, t)
    ensures Contains(a + b, t)
  {
    if Contains(a, t) {
      var i :| 0 <= i <= |a| && t <= a[i..];
      assert (a + b)[i..] == a[i..] + b;
    } else {
      var i :| 0 <= i <= |b| && t <= b[i..];
      assert (a + b)[|a| + i..] == b[i..];
    }
  }

  lemma ContainmentIsTransitive(s: string, t: string, u: string)
    requires Contains(s, t) && Contains(t, u)
    ensures Contains(s, u)
  {
    var i :| 0 <= i <= |s| && t <= s[i..];
    var j :| 0 <= j <= |t| && u <= t[j..];
    assert s[i..][j..] == s[i + j..];
    assert t[j..] <= s[i..][j..];
  }

  lemma {:induction false} PartsAreContained(s: string, sep: char, p: string)
    requires p in Split(s, sep)
    ensures Contains(s, p)
  {
    if s != "" {
      var rest := Split(s[1..], sep);
      if p in rest {
        PartsAreContained(s[1..], sep, p);
        assert s == [s[0]] + s[1..];
        ContainedInConcatenation([s[0]], s[1..], p);
      } else if s[0] == sep {
        assert p == "" && p <= s[0..];
      } else {
        assert p == [s[0]] + rest[0];
        FirstPartIsPrefix(s[1..], sep);
        assert s == [s[0]] + s[1..];
        assert p <= s[0..];
      }
    } else {
      assert p <= s[0..];
    }
  }

  lemma {:induction false} FirstPartIsPrefix(s: string, sep: char)
    ensures Split(s, sep)[0] <= s
  {
    if s != "" && s[0] != sep {
      FirstPartIsPrefix(s[1..], sep);
    }
  }

  lemma {:induction false} TrimmedIsContained(s: string)
    ensures Contains(s, TrimSpace(s))
  {
    TrimLeftIsSuffix(s);
    var n :| 0 <= n <= |s| && TrimLeft(s) == s[n..];
    TrimRightIsPrefix(s[n..]);
  }

  lemma {:induction false} TrimLeftIsSuffix(s: string)
    ensures exists n | 0 <= n <= |s| :: TrimLeft(s) == s[n..]
    ensures TrimLeft(s) != "" ==> !IsSpace(TrimLeft(s)[0])
  {
    if s != "" && IsSpace(s[0]) {
      TrimLeftIsSuffix(s[1..]);
      var n :| 0 <= n <= |s[1..]| && TrimLeft(s[1..]) == s[1..][n..];
      assert s[1..][n..] == s[n + 1..];
    } else {
      assert s == s[0..];
    }
  }

  lemma {:induction false} TrimRightIsPrefix(s: string)
    ensures TrimRight(s) <= s
  {
    if s != "" && IsSpace(s[|s| - 1]) {
      TrimRightIsPrefix(s[..|s| - 1]);
    }
  }

  lemma {:induction false} TrimRightAfterSolid(a: string, c: char, b: string)
    requires !IsSpace(c)
    ensures TrimRight(a + [c] + b) == a + [c] + TrimRight(b)
  {
    if b == "" {
      assert a + [c] + b == a + [c];
    } else {
      var s := a + [c] + b;
      assert s[|s| - 1] == b[|b| - 1];
      assert s[..|s| - 1] == a + [c] + b[..|b| - 1];
      if IsSpace(b[|b| - 1]) {
        TrimRightAfterSolid(a, c, b[..|b| - 1]);
      }
    }
  }

  lemma {:induction false} TrimRightComesFrom(s: string, c: char)
    requires c !in s
    ensures c !in TrimRight(s)
  {
    TrimRightIsPrefix(s);
  }

  // ---------------------------------------------------------------- lexicographic order

  predicate Less(a: string, b: string) {
    b != "" && (a == "" || a[0] < b[0] || (a[0] == b[0] && Less(a[1..], b[1..])))
  }

  lemma {:induction false} LessIsTransitive(a: string, b: string, c: string)
    requires Less(a, b) && Less(b, c)
    ensures Less(a, c)
  {
    if a != "" && a[0] == b[0] && b[0] == c[0] {
      LessIsTransitive(a[1..], b[1..], c[1..]);
    }
  }

  lemma {:induction false} LessIsTotal(a: string, b: string)
    ensures !Less(a, a)
    ensures a == b || Less(a, b) || Less(b, a)
    ensures !(Less(a, b) && Less(b, a))
  {
    if a != "" {
      LessIsTotal(a[1..], if b == "" then "" else b[1..]);
      if b != "" && a[0] == b[0] {
        assert a == [a[0]] + a[1..] && b == [b[0]] + b[1..];
      }
    }
  }

  /** Strictly increasing and made of exactly the strings in `ks`. */
  ghost predicate SortedListing(listing: seq<string>, ks: set<string>) {
    && (forall i, j | 0 <= i < j < |listing| :: Less(listing[i], listing[j]))
    && (forall k :: k in listing <==> k in ks)
  }

  function Inserted(listing: seq<string>, k: string): seq<string> {
    if listing == [] || Less(k, listing[0]) then [k] + listing
    else [listing[0]] + Inserted(listing[1..], k)
  }

  lemma {:induction false} InsertedIsSorted(listing: seq<string>, ks: set<string>, k: string)
    requires SortedListing(listing, ks) && k !in ks
    ensures SortedListing(Inserted(listing, k), ks + {k})
    decreases listing
  {
    if listing != [] && !Less(k, listing[0]) {
      var first := listing[0];
      assert first in listing;
      LessIsTotal(k, first);
      LessIsTotal(first, first);
      assert forall x :: x in listing[1..] <==> x in ks - {first} by {
        assert listing == [first] + listing[1..];
        assert forall i | 1 <= i < |listing| :: Less(first, listing[i]);
      }
      InsertedIsSorted(listing[1..], ks - {first}, k);
      var tail := Inserted(listing[1..], k);
      forall j | 0 <= j < |tail|
        ensures Less(first, tail[j])
      {
        assert tail[j] in tail;
        if tail[j] != k {
          assert tail[j] in listing[1..];
        }
      }
    } else if listing != [] {
      forall j | 0 <= j < |listing|
        ensures Less(k, listing[j])
      {
        if j > 0 {
          LessIsTransitive(k, listing[0], listing[j]);
        }
      }
    }
  }

  lemma EmptyOrNot(listing: seq<string>)
    ensures listing == [] || exists k :: k in listing
  {
    if listing != [] {
      assert listing[0] in listing;
    }
  }

  /** There is one sorted listing of a set, whatever order its elements were met in. */
  lemma {:induction false} SortedListingIsUnique(a: seq<string>, b: seq<string>, ks: set<string>)
    requires SortedListing(a, ks) && SortedListing(b, ks)
    ensures a == b
    decreases a
  {
    EmptyOrNot(a);
    EmptyOrNot(b);
    if a != [] {
      assert a[0] in a && a[0] in b;
      assert b[0] in b && b[0] in a;
      var i :| 0 <= i < |b| && b[i] == a[0];
      var j :| 0 <= j < |a| && a[j] == b[0];
      LessIsTotal(a[0], b[0]);
      assert a[0] == b[0];
      TailOfListing(a, ks);
      TailOfListing(b, ks);
      SortedListingIsUnique(a[1..], b[1..], ks - {a[0]});
    }
  }

  lemma TailOfListing(a: seq<string>, ks: set<string>)
    requires SortedListing(a, ks) && a != []
    ensures SortedListing(a[1..], ks - {a[0]})
  {
    LessIsTotal(a[0], a[0]);
    assert a == [a[0]] + a[1..];
    assert forall i | 1 <= i < |a| :: Less(a[0], a[i]);
  }

  /** Sorts a duplicate-free list. */
  function Sort(listing: seq<string>): seq<string> {
    if listing == [] then [] else Inserted(Sort(listing[1..]), listing[0])
  }

  lemma {:induction false} SortIsSorted(listing: seq<string>, ks: set<string>)
    requires forall i, j | 0 <= i < j < |listing| :: listing[i] != listing[j]
    requires forall k :: k in listing <==> k in ks
    ensures SortedListing(Sort(listing), ks)
    decreases listing
  {
    if listing != [] {
      assert listing == [listing[0]] + listing[1..];
      assert forall i | 1 <= i < |listing| :: listing[i] != listing[0];
      SortIsSorted(listing[1..], ks - {listing[0]});
      InsertedIsSorted(Sort(listing[1..]), ks - {listing[0]}, listing[0]);
      assert (ks - {listing[0]}) + {listing[0]} == ks;
    }
  }
}
