/** What the watch makes of the pods there are: the cluster's side of the stream of events. */
module CollectorPods {
  import opened CollectorWatch

  /** What happens in the cluster and to the connection. A watch that is opened shows the pods there are, as the API
      server does for a watch that does not say where to start; while none is open, nothing is shown. */
  datatype Happening =
    | Starts(name: string)
    | Ends(name: string)
    | Opens(shown: seq<string>)
    | Closes

  datatype Cluster = Cluster(pods: set<string>, watched: bool)

  ghost predicate Possible(c: Cluster, h: Happening) {
    match h
    case Starts(n) => n !in c.pods
    case Ends(n) => n in c.pods
    case Opens(shown) => !c.watched && forall n :: n in shown <==> n in c.pods
    case Closes => c.watched
  }

  function Next(c: Cluster, h: Happening): Cluster {
    match h
    case Starts(n) => c.(pods := c.pods + {n})
    case Ends(n) => c.(pods := c.pods - {n})
    case Opens(_) => c.(watched := true)
    case Closes => c.(watched := false)
  }

  function AllAdded(names: seq<string>): seq<Event> {
    if names == [] then [] else AllAdded(names[..|names| - 1]) + [Added(names[|names| - 1])]
  }

  /** The events the client gets to see of it. */
  function Shown(c: Cluster, h: Happening): seq<Event> {
    match h
    case Starts(n) => if c.watched then [Added(n)] else []
    case Ends(n) => if c.watched then [Deleted(n)] else []
    case Opens(shown) => AllAdded(shown)
    case Closes => [ChannelClosed]
  }

  function After(c: Cluster, hs: seq<Happening>): Cluster {
    if hs == [] then c else Next(After(c, hs[..|hs| - 1]), hs[|hs| - 1])
  }

  ghost predicate AllPossible(c: Cluster, hs: seq<Happening>) {
    hs == [] || (AllPossible(c, hs[..|hs| - 1]) && Possible(After(c, hs[..|hs| - 1]), hs[|hs| - 1]))
  }

  function Stream(c: Cluster, hs: seq<Happening>): seq<Event> {
    if hs == [] then []
    else Stream(c, hs[..|hs| - 1]) + Shown(After(c, hs[..|hs| - 1]), hs[|hs| - 1])
  }

  /** The names in the client's map once it has handled what it got to see. */
  function Known(c: Cluster, listed: set<string>, hs: seq<Happening>): set<string> {
    FinalNames(listed, Stream(c, hs))
  }

  // ---------------------------------------------------------------- the client's map and the pods

  predicate NoEnd(stream: seq<Event>) {
    forall i | 0 <= i < |stream| :: !EndsWatching(stream[i])
  }

  lemma {:induction false} FinalNamesInParts(names: set<string>, first: seq<Event>, second: seq<Event>)
    requires NoEnd(first)
    ensures FinalNames(names, first + second) == FinalNames(FinalNames(names, first), second)
    decreases first
  {
    if first == [] {
      assert first + second == second;
    } else {
      assert (first + second)[1..] == first[1..] + second;
      FinalNamesInParts(NamesAfter(names, first[0]), first[1..], second);
    }
  }

  lemma {:induction false} AllAddedNames(names: set<string>, shown: seq<string>)
    ensures NoEnd(AllAdded(shown))
    ensures forall n :: n in FinalNames(names, AllAdded(shown)) <==> n in names || n in shown
  {
    if shown != [] {
      var before, last := shown[..|shown| - 1], shown[|shown| - 1];
      AllAddedNames(names, before);
      FinalNamesInParts(names, AllAdded(before), [Added(last)]);
      var sofar := FinalNames(names, AllAdded(before));
      assert [Added(last)][1..] == [] && FinalNames(sofar, [Added(last)]) == sofar + {last};
      assert shown == before + [last];
    }
  }

  lemma ShownNames(c: Cluster, names: set<string>, h: Happening)
    requires Possible(c, h)
    ensures NoEnd(Shown(c, h))
    ensures forall n ::
              n in FinalNames(names, Shown(c, h)) <==>
                match h
                case Starts(m) => n in names || (c.watched && n == m)
                case Ends(m) => n in names && !(c.watched && n == m)
                case Opens(_) => n in names || n in c.pods
                case Closes => n in names
  {
    match h {
      case Opens(shown) => AllAddedNames(names, shown);
      case Starts(m) => assert [Added(m)][1..] == [];
      case Ends(m) => assert [Deleted(m)][1..] == [];
      case Closes => assert [ChannelClosed][1..] == [];
    }
  }

  lemma {:induction false} StreamGoesOn(c: Cluster, hs: seq<Happening>)
    requires AllPossible(c, hs)
    ensures NoEnd(Stream(c, hs))
  {
    if hs != [] {
      StreamGoesOn(c, hs[..|hs| - 1]);
      ShownNames(After(c, hs[..|hs| - 1]), {}, hs[|hs| - 1]);
    }
  }

  /** One more happening, and what becomes of the map. */
  lemma KnownAfter(c: Cluster, listed: set<string>, hs: seq<Happening>)
    requires AllPossible(c, hs) && hs != []
    ensures var before, h := hs[..|hs| - 1], hs[|hs| - 1];
            Known(c, listed, hs) == FinalNames(Known(c, listed, before), Shown(After(c, before), h))
  {
    StreamGoesOn(c, hs[..|hs| - 1]);
    FinalNamesInParts(listed, Stream(c, hs[..|hs| - 1]), Shown(After(c, hs[..|hs| - 1]), hs[|hs| - 1]));
  }

  /** The pod ended while no watch was open, when the client knew it, and has not started again. */
  ghost predicate Missed(c: Cluster, listed: set<string>, hs: seq<Happening>, n: string) {
    exists i | 0 <= i < |hs| :: MissedAt(c, listed, hs, n, i)
  }

  ghost predicate MissedAt(c: Cluster, listed: set<string>, hs: seq<Happening>, n: string, i: nat)
    requires i < |hs|
  {
    && hs[i] == Ends(n) && !After(c, hs[..i]).watched && n in Known(c, listed, hs[..i])
    && Starts(n) !in hs[i + 1..]
  }

  /** The pods that are known and gone are exactly those whose end was missed. */
  lemma {:induction false} KnownButGone(c: Cluster, listed: set<string>, hs: seq<Happening>, n: string)
    requires AllPossible(c, hs) && listed <= c.pods
    ensures n in Known(c, listed, hs) && n !in After(c, hs).pods <==> Missed(c, listed, hs, n)
  {
    if hs != [] {
      var before, h := hs[..|hs| - 1], hs[|hs| - 1];
      KnownButGone(c, listed, before, n);
      KnownAfter(c, listed, hs);
      ShownNames(After(c, before), Known(c, listed, before), h);
      MissedAfter(c, listed, hs, n);
    }
  }

  lemma MissedAfter(c: Cluster, listed: set<string>, hs: seq<Happening>, n: string)
    requires hs != []
    ensures var before, h := hs[..|hs| - 1], hs[|hs| - 1];
            Missed(c, listed, hs, n) <==>
              || (Missed(c, listed, before, n) && h != Starts(n))
              || (h == Ends(n) && !After(c, before).watched && n in Known(c, listed, before))
  {
    var before, h := hs[..|hs| - 1], hs[|hs| - 1];
    forall i | 0 <= i < |before|
      ensures MissedAt(c, listed, hs, n, i) <==> MissedAt(c, listed, before, n, i) && h != Starts(n)
    {
      assert before[..i] == hs[..i] && hs[i + 1..] == before[i + 1..] + [h];
    }
    assert MissedAt(c, listed, hs, n, |before|) <==>
        h == Ends(n) && !After(c, before).watched && n in Known(c, listed, before);
    if Missed(c, listed, hs, n) {
      var i :| 0 <= i < |hs| && MissedAt(c, listed, hs, n, i);
      assert i < |before| || i == |before|;
    }
  }

  /** While a watch is open, the client knows every pod there is. */
  lemma {:induction false} WatchedAreKnown(c: Cluster, listed: set<string>, hs: seq<Happening>)
    requires AllPossible(c, hs) && !c.watched && After(c, hs).watched
    ensures After(c, hs).pods <= Known(c, listed, hs)
  {
    if hs != [] {
      var before, h := hs[..|hs| - 1], hs[|hs| - 1];
      KnownAfter(c, listed, hs);
      ShownNames(After(c, before), Known(c, listed, before), h);
      if After(c, before).watched {
        WatchedAreKnown(c, listed, before);
      }
    }
  }

  /** Exactly when the client's map is right, a watch being open: no end was missed. Otherwise it has those pods in
      addition. */
  lemma MapIsRight(c: Cluster, listed: set<string>, hs: seq<Happening>)
    requires AllPossible(c, hs) && !c.watched && listed <= c.pods && After(c, hs).watched
    ensures forall n :: n in Known(c, listed, hs) <==> n in After(c, hs).pods || Missed(c, listed, hs, n)
    ensures Known(c, listed, hs) == After(c, hs).pods <==> forall n :: !Missed(c, listed, hs, n)
  {
    WatchedAreKnown(c, listed, hs);
    forall n
      ensures n in Known(c, listed, hs) && n !in After(c, hs).pods <==> Missed(c, listed, hs, n)
    {
      KnownButGone(c, listed, hs, n);
    }
  }

  /** Such an end does occur, and the watch that is opened next does not make up for it. */
  lemma EndIsMissed(n: string)
    ensures var c, hs := Cluster({n}, false), [Opens([n]), Closes, Ends(n), Opens([])];
            && AllPossible(c, hs) && After(c, hs) == Cluster({}, true)
            && Known(c, {n}, hs) == {n}
  {
    var c, hs := Cluster({n}, false), [Opens([n]), Closes, Ends(n), Opens([])];
    OneMore(c, {n}, [], Opens([n]));
    assert [] + [Opens([n])] == [Opens([n])];
    OneMore(c, {n}, [Opens([n])], Closes);
    assert [Opens([n])] + [Closes] == [Opens([n]), Closes];
    OneMore(c, {n}, [Opens([n]), Closes], Ends(n));
    assert [Opens([n]), Closes] + [Ends(n)] == [Opens([n]), Closes, Ends(n)];
    assert After(c, [Opens([n]), Closes, Ends(n)]) == Cluster({}, false);
    OneMore(c, {n}, [Opens([n]), Closes, Ends(n)], Opens([]));
    assert [Opens([n]), Closes, Ends(n)] + [Opens([])] == hs;
    assert Known(c, {n}, hs) == {n};
  }

  lemma OneMore(c: Cluster, listed: set<string>, hs: seq<Happening>, h: Happening)
    requires AllPossible(c, hs) && Possible(After(c, hs), h)
    ensures AllPossible(c, hs + [h]) && After(c, hs + [h]) == Next(After(c, hs), h)
    ensures forall n ::
              n in Known(c, listed, hs + [h]) <==>
                match h
                case Starts(m) => n in Known(c, listed, hs) || (After(c, hs).watched && n == m)
                case Ends(m) => n in Known(c, listed, hs) && !(After(c, hs).watched && n == m)
                case Opens(_) => n in Known(c, listed, hs) || n in After(c, hs).pods
                case Closes => n in Known(c, listed, hs)
  {
    assert (hs + [h])[..|hs|] == hs;
    KnownAfter(c, listed, hs + [h]);
    ShownNames(After(c, hs), Known(c, listed, hs), h);
  }
}
