/** The value of OTEL_RESOURCE_ATTRIBUTES: printed from a map of attributes, parsed back into a set of keys. */
module ResourceAttributes {
  import opened Strings

  // ---------------------------------------------------------------- parsing

  predicate IsKeyValue(segment: string) {
    |Split(TrimSpace(segment), '=')| == 2
  }

  function KeyOf(segment: string): string {
    Split(TrimSpace(segment), '=')[0]
  }

  /** The keys the injector recognises in a value; malformed segments are passed over. */
  function ParsedKeys(value: string): set<string> {
    KeysOf(Split(value, ','))
  }

  function KeysOf(segments: seq<string>): set<string> {
    set segment | segment in segments && IsKeyValue(segment) :: KeyOf(segment)
  }

  method ParseExisting(value: string) returns (existing: set<string>)
    ensures existing == ParsedKeys(value)
  {
    existing := {};
    var segments := Split(value, ',');
    for i := 0 to |segments|
      invariant existing == KeysOf(segments[..i])
    {
      assert segments[..i + 1] == segments[..i] + [segments[i]];
      KeysOfConcatenation(segments[..i], [segments[i]]);
      KeysOfOne(segments[i]);
      var keyValue := Split(TrimSpace(segments[i]), '=');
      if |keyValue| == 2 {
        existing := existing + {keyValue[0]};
      }
    }
    assert segments[..|segments|] == segments;
  }

  lemma KeysOfConcatenation(a: seq<string>, b: seq<string>)
    ensures KeysOf(a + b) == KeysOf(a) + KeysOf(b)
  {
    forall segment | segment in a + b
      ensures segment in a || segment in b
    {
    }
    forall k | k in KeysOf(a) + KeysOf(b)
      ensures k in KeysOf(a + b)
    {
      var segment :| (segment in a || segment in b) && IsKeyValue(segment) && KeyOf(segment) == k;
      assert segment in a + b;
    }
  }

  lemma KeysOfOne(segment: string)
    ensures KeysOf([segment]) == if IsKeyValue(segment) then {KeyOf(segment)} else {}
  {
    assert segment in [segment];
  }

  lemma ParsedKeysOfAppended(a: string, b: string)
    ensures ParsedKeys(a + "," + b) == ParsedKeys(a) + ParsedKeys(b)
  {
    SplitAtSeparator(a, ',', b);
    KeysOfConcatenation(Split(a, ','), Split(b, ','));
  }

  /** What is recognised: what stands before the only equals sign of a part between commas, but for blanks around. */
  lemma ParsedKeysExactly(value: string, k: string)
    ensures k in ParsedKeys(value) <==>
              exists part, v :: part in Split(value, ',') && TrimSpace(part) == k + "=" + v && '=' !in k && '=' !in v
  {
    forall part
      ensures IsKeyValue(part) && KeyOf(part) == k <==>
                exists v :: TrimSpace(part) == k + "=" + v && '=' !in k && '=' !in v
    {
      KeyValueExactly(TrimSpace(part), k);
    }
    if k in ParsedKeys(value) {
      var part :| part in Split(value, ',') && IsKeyValue(part) && KeyOf(part) == k;
      assert exists v :: TrimSpace(part) == k + "=" + v && '=' !in k && '=' !in v;
    }
  }

  lemma KeyValueExactly(trimmed: string, k: string)
    ensures |Split(trimmed, '=')| == 2 && Split(trimmed, '=')[0] == k <==>
              exists v :: trimmed == k + "=" + v && '=' !in k && '=' !in v
  {
    if v :| trimmed == k + "=" + v && '=' !in k && '=' !in v {
      SplitAtSeparator(k, '=', v);
      SplitWithoutSeparator(k, '=');
      SplitWithoutSeparator(v, '=');
    }
    var parts := Split(trimmed, '=');
    if |parts| == 2 && parts[0] == k {
      JoinOfSplit(trimmed, '=');
      PartsAreFree(trimmed, '=');
      assert parts[1] in parts && parts[1..] == [parts[1]];
      assert trimmed == k + "=" + parts[1];
    }
  }

  lemma NoKeysInEmpty()
    ensures ParsedKeys("") == {}
  {
    KeysOfOne("");
    assert TrimSpace("") == "" && Split("", '=') == [""] && Split("", ',') == [""];
  }

  lemma ParsedKeysAreContained(value: string, k: string)
    requires k in ParsedKeys(value)
    ensures Contains(value, k)
  {
    var segment :| segment in Split(value, ',') && IsKeyValue(segment) && KeyOf(segment) == k;
    PartsAreContained(value, ',', segment);
    TrimmedIsContained(segment);
    PartsAreContained(TrimSpace(segment), '=', k);
    ContainmentIsTransitive(segment, TrimSpace(segment), k);
    ContainmentIsTransitive(value, segment, k);
  }

  // ---------------------------------------------------------------- printing

  function Pair(k: string, v: string): string {
    k + "=" + v
  }

  function Pairs(keys: seq<string>, m: map<string, string>): seq<string>
    requires forall k | k in keys :: k in m
  {
    seq(|keys|, i requires 0 <= i < |keys| => assert keys[i] in keys; Pair(keys[i], m[keys[i]]))
  }

  ghost function SortedKeys(ks: set<string>): (listing: seq<string>)
    ensures SortedListing(listing, ks)
  {
    if ks == {} then []
    else
      var k :| k in ks;
      InsertedIsSorted(SortedKeys(ks - {k}), ks - {k}, k);
      assert (ks - {k}) + {k} == ks;
      Inserted(SortedKeys(ks - {k}), k)
  }

  /** The printed form of a map: its pairs in the order of their keys, separated by commas. */
  ghost function Printed(m: map<string, string>): string {
    Join(Pairs(SortedKeys(m.Keys), m), ",")
  }

  /** Ranges over the map in any order; sorting makes the result a function of the map. */
  method KeysInOrder(m: map<string, string>) returns (keys: seq<string>)
    ensures keys == SortedKeys(m.Keys)
  {
    keys := [];
    var rest := m.Keys;
    while rest != {}
      invariant rest <= m.Keys
      invariant forall k :: k in keys <==> k in m && k !in rest
      invariant forall i, j | 0 <= i < j < |keys| :: keys[i] != keys[j]
    {
      var k :| k in rest;
      assert forall i | 0 <= i < |keys| :: keys[i] in keys;
      keys := keys + [k];
      rest := rest - {k};
    }
    SortIsSorted(keys, m.Keys);
    keys := Sort(keys);
    SortedListingIsUnique(keys, SortedKeys(m.Keys), m.Keys);
  }

  method ResourceMapToStr(m: map<string, string>) returns (str: string)
    ensures str == Printed(m)
  {
    var keys := KeysInOrder(m);
    str := "";
    ghost var pairs := Pairs(keys, m);
    for i := 0 to |keys|
      invariant str == Join(pairs[..i], ",")
      invariant i > 0 ==> str != ""
    {
      assert keys[i] in keys;
      JoinNext(pairs, i);
      if str != "" {
        str := str + ",";
      }
      str := str + Pair(keys[i], m[keys[i]]);
    }
    assert pairs[..|keys|] == pairs;
  }

  lemma JoinNext(pairs: seq<string>, i: nat)
    requires i < |pairs|
    ensures Join(pairs[..i + 1], ",") == if i == 0 then pairs[i] else Join(pairs[..i], ",") + "," + pairs[i]
  {
    JoinOneMore(pairs[..i], pairs[i]);
    assert pairs[..i + 1] == pairs[..i] + [pairs[i]];
  }

  lemma {:induction false} JoinOneMore(parts: seq<string>, p: string)
    ensures Join(parts + [p], ",") == if parts == [] then p else Join(parts, ",") + "," + p
  {
    if parts != [] {
      assert (parts + [p])[1..] == parts[1..] + [p];
      JoinOneMore(parts[1..], p);
    }
  }

  lemma PrintedEmpty()
    ensures Printed(map[]) == ""
  {
    EmptyOrNot(SortedKeys({}));
  }

  lemma {:induction false} JoinedPartIsContained(parts: seq<string>, p: string)
    requires p in parts
    ensures Contains(Join(parts, ","), p)
  {
    if |parts| == 1 {
      assert p <= parts[0][0..];
    } else {
      var later := Join(parts[1..], ",");
      assert Join(parts, ",") == parts[0] + "," + later;
      if p == parts[0] {
        assert p <= p[0..];
        ContainedInConcatenation(p, ",", p);
        ContainedInConcatenation(p + ",", later, p);
      } else {
        assert p in parts[1..];
        JoinedPartIsContained(parts[1..], p);
        ContainedInConcatenation(parts[0] + ",", later, p);
      }
    }
  }

  lemma PairIsPrinted(m: map<string, string>, k: string)
    requires k in m
    ensures Pair(k, m[k]) in Pairs(SortedKeys(m.Keys), m)
    ensures Contains(Printed(m), k)
    ensures Printed(m) != ""
  {
    var keys := SortedKeys(m.Keys);
    var pairs := Pairs(keys, m);
    assert k in keys;
    var i :| 0 <= i < |keys| && keys[i] == k;
    assert pairs[i] == Pair(k, m[k]);
    JoinedPartIsContained(pairs, pairs[i]);
    assert k <= Pair(k, m[k])[0..];
    ContainmentIsTransitive(Printed(m), pairs[i], k);
    assert 0 < |pairs[i]| <= |Printed(m)|;
  }

  // ---------------------------------------------------------------- the round trip

  predicate CleanKey(k: string) {
    ',' !in k && '=' !in k && (k == "" || !IsSpace(k[0]))
  }

  predicate CleanValue(v: string) {
    ',' !in v && '=' !in v
  }

  /** Whatever is parsed out of a string is a clean key; an unclean one is never recovered. */
  lemma ParsedKeysAreClean(value: string, k: string)
    requires k in ParsedKeys(value)
    ensures CleanKey(k)
  {
    var segment :| segment in Split(value, ',') && IsKeyValue(segment) && KeyOf(segment) == k;
    var trimmed := TrimSpace(segment);
    PartsAreFree(value, ',');
    TrimLeftIsSuffix(segment);
    TrimRightComesFrom(TrimLeft(segment), ',');
    PartsComeFrom(trimmed, '=', ',');
    PartsAreFree(trimmed, '=');
    assert k in Split(trimmed, '=');
    FirstPartIsPrefix(trimmed, '=');
    TrimRightIsPrefix(TrimLeft(segment));
  }

  /** A clean key is recovered from its own pair as soon as the value has no equals sign before its first comma. */
  lemma CleanKeyIsRecovered(k: string, v: string)
    requires CleanKey(k) && '=' !in Split(v, ',')[0]
    ensures k in ParsedKeys(Pair(k, v))
  {
    var head := Split(v, ',')[0];
    PrefixedSplit(k + "=", v);
    var segment := Pair(k, head);
    assert Split(Pair(k, v), ',')[0] == segment;
    PairSegment(k, head);
    assert segment in Split(Pair(k, v), ',');
  }

  lemma PairSegment(k: string, head: string)
    requires CleanKey(k) && '=' !in head
    ensures IsKeyValue(Pair(k, head)) && KeyOf(Pair(k, head)) == k
  {
    var segment := Pair(k, head);
    assert segment[0] == if k == "" then '=' else k[0];
    assert TrimLeft(segment) == segment;
    TrimRightAfterSolid(k, '=', head);
    TrimRightComesFrom(head, '=');
    SplitAtSeparator(k, '=', TrimRight(head));
    SplitWithoutSeparator(k, '=');
    SplitWithoutSeparator(TrimRight(head), '=');
  }

  lemma {:induction false} PrefixedSplit(a: string, s: string)
    requires ',' !in a
    ensures Split(a + s, ',') == [a + Split(s, ',')[0]] + Split(s, ',')[1..]
  {
    if a == "" {
      assert a + s == s && "" + Split(s, ',')[0] == Split(s, ',')[0];
    } else {
      assert (a + s)[1..] == a[1..] + s;
      PrefixedSplit(a[1..], s);
      assert [a[0]] + (a[1..] + Split(s, ',')[0]) == a + Split(s, ',')[0];
    }
  }

  lemma CleanPairIsOneKey(k: string, v: string)
    requires CleanKey(k) && CleanValue(v)
    ensures ParsedKeys(Pair(k, v)) == {k}
  {
    SplitWithoutSeparator(Pair(k, v), ',');
    PairSegment(k, v);
    KeysOfOne(Pair(k, v));
  }

  lemma {:induction false} ParsedKeysOfJoined(parts: seq<string>, k: string)
    requires parts != []
    ensures k in ParsedKeys(Join(parts, ",")) <==> exists p :: p in parts && k in ParsedKeys(p)
  {
    if |parts| == 1 {
      assert parts[0] in parts;
    } else {
      ParsedKeysOfAppended(parts[0], Join(parts[1..], ","));
      ParsedKeysOfJoined(parts[1..], k);
      assert parts == [parts[0]] + parts[1..];
      assert parts[0] in parts;
    }
  }

  /** What is recognised in a printed map is what is recognised in its pairs. */
  lemma ParsedKeysOfPrinted(m: map<string, string>, k: string)
    ensures k in ParsedKeys(Printed(m)) <==> exists k' :: k' in m && k in ParsedKeys(Pair(k', m[k']))
  {
    var keys := SortedKeys(m.Keys);
    var pairs := Pairs(keys, m);
    if m == map[] {
      PrintedEmpty();
      NoKeysInEmpty();
    } else {
      var any :| any in m;
      PairIsPrinted(m, any);
      ParsedKeysOfJoined(pairs, k);
      if p :| p in pairs && k in ParsedKeys(p) {
        var i :| 0 <= i < |pairs| && pairs[i] == p;
        assert keys[i] in keys;
      }
      if k' :| k' in m && k in ParsedKeys(Pair(k', m[k'])) {
        PairIsPrinted(m, k');
      }
    }
  }

  /** The round trip: with clean values, parsing the printed map gives back exactly its keys if and only if they are
      all clean. */
  lemma RoundTrip(m: map<string, string>)
    requires forall k | k in m :: CleanValue(m[k])
    ensures ParsedKeys(Printed(m)) == m.Keys <==> forall k | k in m :: CleanKey(k)
  {
    if forall k | k in m :: CleanKey(k) {
      forall k
        ensures k in ParsedKeys(Printed(m)) <==> k in m
      {
        ParsedKeysOfPrinted(m, k);
        forall k' | k' in m
          ensures ParsedKeys(Pair(k', m[k'])) == {k'}
        {
          CleanPairIsOneKey(k', m[k']);
        }
      }
    } else {
      var k :| k in m && !CleanKey(k);
      if k in ParsedKeys(Printed(m)) {
        ParsedKeysAreClean(Printed(m), k);
      }
    }
  }

  /** A clean key survives printing next to anything, if its own value has no equals sign before its first comma. */
  lemma RecoveredFromPrinted(m: map<string, string>, k: string)
    requires k in m && CleanKey(k) && '=' !in Split(m[k], ',')[0]
    ensures k in ParsedKeys(Printed(m))
  {
    CleanKeyIsRecovered(k, m[k]);
    ParsedKeysOfPrinted(m, k);
  }
}
