/**
 * The first revision of the title pass, in `AppComponent.ngOnInit`: every
 * titled segment below the first chain element contributes its
 * `data['title']` value itself, and each navigation publishes
 * `titles.join(': ')` unconditionally.
 */
module AppComponent {

  import opened JsValues
  import opened RouteChain

  /** The loop body's accumulation: each titled segment's title value, in visit order. */
  function AppCollect(segs: seq<Segment>): (r: seq<Value>)
    ensures |r| <= |segs|
    ensures forall i :: 0 <= i < |r| ==> Truthy(r[i])
    decreases |segs|
  {
    if |segs| == 0 then []
    else
      var last := segs[|segs| - 1];
      AppCollect(segs[..|segs| - 1]) + (if Titled(last) then [TitleData(last)] else [])
  }

  /** Positions of the segments that carry a truthy title. */
  function TitledPositions(segs: seq<Segment>): set<int>
  {
    set i | 0 <= i < |segs| && Titled(segs[i])
  }

  /** Extending the chain by one segment adds its position exactly when it is titled. */
  lemma TitledPositionsSnoc(segs: seq<Segment>)
    requires |segs| > 0
    ensures var n := |segs| - 1;
      |TitledPositions(segs)| == |TitledPositions(segs[..n])| + (if Titled(segs[n]) then 1 else 0)
  {
    var n := |segs| - 1;
    var front := segs[..n];
    var before := TitledPositions(front);
    forall i | 0 <= i < n
      ensures front[i] == segs[i]
    {
    }
    if Titled(segs[n]) {
      assert TitledPositions(segs) == before + {n};
      assert n !in before;
    } else {
      assert TitledPositions(segs) == before;
    }
  }

  /** Collecting over a concatenation collects over each part, in order. */
  lemma {:induction false} AppCollectAppend(a: seq<Segment>, b: seq<Segment>)
    ensures AppCollect(a + b) == AppCollect(a) + AppCollect(b)
    decreases |b|
  {
    if |b| == 0 {
      assert a + b == a;
    } else {
      assert (a + b)[..|a + b| - 1] == a + b[..|b| - 1];
      AppCollectAppend(a, b[..|b| - 1]);
    }
  }

  /** One entry per titled segment: the entry count is the number of titled positions. */
  lemma {:induction false} AppCollectCountsTitled(segs: seq<Segment>)
    ensures |AppCollect(segs)| == |TitledPositions(segs)|
    decreases |segs|
  {
    if |segs| > 0 {
      var n := |segs| - 1;
      var front := segs[..n];
      AppCollectCountsTitled(front);
      TitledPositionsSnoc(segs);
      if Titled(segs[n]) {
        assert AppCollect(segs) == AppCollect(front) + [TitleData(segs[n])];
      } else {
        assert AppCollect(segs) == AppCollect(front);
      }
    }
  }

  /** The value `map(...)` returns: fresh titles when the deepest segment is titled, else the previous result. */
  function AppResolve(chain: seq<Segment>, prev: seq<Value>): (r: seq<Value>)
    requires |chain| >= 1
    ensures !Titled(Deepest(chain)) ==> r == prev
    ensures Titled(Deepest(chain)) ==> r == AppCollect(Visited(chain))
  {
    if Titled(Deepest(chain)) then AppCollect(Visited(chain)) else prev
  }

  /** The `map(...)` closure as written: walk with `child = child.firstChild`, then decide. */
  method AppMapPass(chain: seq<Segment>, prev: seq<Value>) returns (result: seq<Value>)
    requires |chain| >= 1
    ensures result == AppResolve(chain, prev)
  {
    var k := 0;
    var child := chain[0];
    var titles: seq<Value> := [];
    while k + 1 < |chain|
      invariant 0 <= k < |chain|
      invariant child == chain[k]
      invariant titles == AppCollect(chain[1..k + 1])
    {
      k := k + 1;
      child := chain[k];
      assert chain[1..k + 1][..k - 1] == chain[1..k];
      if Titled(child) {
        titles := titles + [TitleData(child)];
      }
    }
    assert chain[1..k + 1] == Visited(chain);
    if Titled(child) {
      result := titles;
    } else {
      result := prev;
    }
  }

  /** `result` as it stands before the first navigation: `[titleService.getTitle()]`. */
  function AppInitial(docTitle: string): (r: seq<Value>)
    ensures |r| == 1
    ensures Truthy(r[0]) <==> docTitle != ""
    ensures Join(r, ": ") == docTitle
  {
    [Str(docTitle)]
  }

  /** The retained result after a navigation, and the string handed to `Title.setTitle`. */
  datatype AppStep = AppStep(result: seq<Value>, published: string)

  /** One navigation: the `map` pass, then the subscriber publishing `titles.join(': ')`. */
  function AppNavigate(prev: seq<Value>, chain: seq<Segment>): (r: AppStep)
    requires |chain| >= 1
    ensures r.published == Join(r.result, ": ")
    ensures r.result == AppResolve(chain, prev)
  {
    var result := AppResolve(chain, prev);
    AppStep(result, Join(result, ": "))
  }

  /** A titled deepest segment replaces the previous result, and so the published title, whatever they were. */
  lemma AppTitledDeepestDiscardsPrevious(chain: seq<Segment>, prev: seq<Value>, other: seq<Value>)
    requires |chain| >= 1 && Titled(Deepest(chain))
    ensures AppNavigate(prev, chain) == AppNavigate(other, chain)
  {
  }

  /** The first chain element is never inspected for an entry: swapping it changes nothing once there is a second element. */
  lemma AppFirstSegmentNeverContributes(a: Segment, b: Segment, rest: seq<Segment>, prev: seq<Value>)
    requires |rest| >= 1
    ensures AppNavigate(prev, [a] + rest) == AppNavigate(prev, [b] + rest)
  {
    assert Visited([a] + rest) == rest == Visited([b] + rest);
    assert Deepest([a] + rest) == Deepest(rest) == Deepest([b] + rest);
    assert AppResolve([a] + rest, prev) == AppResolve([b] + rest, prev);
  }

  /** With a titled deepest segment, the retained titles are exactly one per titled segment below the first element. */
  lemma AppTitleCountMatchesTitledSegments(chain: seq<Segment>, prev: seq<Value>)
    requires |chain| >= 1
    requires Titled(Deepest(chain))
    ensures |AppNavigate(prev, chain).result| == |TitledPositions(Visited(chain))|
  {
    AppCollectCountsTitled(Visited(chain));
  }

  /**
   * A titled deepest segment below the first element puts its own title last:
   * the published string ends with that title, after `": "` when something precedes it.
   */
  lemma AppPublishedEndsWithDeepestTitle(chain: seq<Segment>, prev: seq<Value>)
    requires |chain| >= 2
    requires Titled(Deepest(chain))
    ensures var r := AppNavigate(prev, chain);
      && |r.result| >= 1
      && r.result[|r.result| - 1] == TitleData(Deepest(chain))
      && (|r.result| == 1 ==> r.published == Render(TitleData(Deepest(chain))))
      && (|r.result| > 1 ==> r.published == Join(r.result[..|r.result| - 1], ": ") + ": " + Render(TitleData(Deepest(chain))))
  {
    var v := Visited(chain);
    var r := AppNavigate(prev, chain);
    assert v[|v| - 1] == Deepest(chain);
    var front := AppCollect(v[..|v| - 1]);
    assert r.result == front + [TitleData(Deepest(chain))];
    if |front| > 0 {
      assert r.result[..|r.result| - 1] == front;
      JoinSnoc(front, TitleData(Deepest(chain)), ": ");
    }
  }

  /** A chain of one titled element: it is the deepest but never visited, so nothing is collected and `""` is published. */
  lemma AppLoneTitledSegmentPublishesEmpty(seg: Segment, prev: seq<Value>)
    requires Titled(seg)
    ensures AppNavigate(prev, [seg]) == AppStep([], "")
  {
  }

  /** Navigating to an untitled deepest segment first keeps and republishes the document's title. */
  lemma AppUntitledFirstNavigationKeepsDocumentTitle(docTitle: string, chain: seq<Segment>)
    requires |chain| >= 1
    requires !Titled(Deepest(chain))
    ensures AppNavigate(AppInitial(docTitle), chain).published == docTitle
  {
  }
}
