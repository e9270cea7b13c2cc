/**
 * The resolver-aware revision of the title pass, in `TitleService`. A titled
 * segment contributes one `{label, resolved}` entry per usable resolver
 * binding of its title object, followed by the title object itself. The
 * subscriber publishes the entries' labels joined with `": "`, but only when
 * the list is non-empty, and remembers the list in `routeTitles`.
 */
module TitleService {

  import opened Optional
  import opened JsValues
  import opened RouteChain
  import AppComponent

  // ----- resolver bindings -------------------------------------------------

  /** The test `config.resolver && config.itemKey`. */
  predicate Usable(binding: Value)
    requires binding != Undefined
  {
    Truthy(GetProp(binding, "resolver")) && Truthy(GetProp(binding, "itemKey"))
  }

  /** `child.snapshot.data[config.resolver]`: the resolved object the binding points at. */
  function Bucket(data: map<string, Value>, binding: Value): Value
    requires binding != Undefined
  {
    Lookup(data, ToJsString(GetProp(binding, "resolver")))
  }

  /**
   * What the loop body needs of one element of `resolvers` to run without
   * throwing: the element is defined, and a usable binding names a bucket
   * that exists (its `[config.itemKey]` is read).
   */
  predicate BindingReady(data: map<string, Value>, binding: Value)
  {
    binding != Undefined && (Usable(binding) ==> Bucket(data, binding) != Undefined)
  }

  predicate BindingsReady(data: map<string, Value>, bindings: seq<Value>)
  {
    forall i :: 0 <= i < |bindings| ==> BindingReady(data, bindings[i])
  }

  /** The object pushed for a usable binding: `{label: bucket[itemKey], resolved: bucket}`. */
  function ResolvedEntry(data: map<string, Value>, binding: Value): (e: Value)
    requires BindingReady(data, binding) && Usable(binding)
    ensures e.Obj?
    ensures GetProp(e, "resolved") == Bucket(data, binding)
    ensures GetProp(e, "label") == GetProp(Bucket(data, binding), ToJsString(GetProp(binding, "itemKey")))
  {
    var bucket := Bucket(data, binding);
    Obj(map["label" := GetProp(bucket, ToJsString(GetProp(binding, "itemKey"))), "resolved" := bucket])
  }

  /** `resolvers.forEach(...)`: one entry per usable binding, in declared order. */
  function ResolverEntries(data: map<string, Value>, bindings: seq<Value>): (r: seq<Value>)
    requires BindingsReady(data, bindings)
    ensures |r| <= |bindings|
    ensures forall i :: 0 <= i < |r| ==> r[i].Obj?
    decreases |bindings|
  {
    if |bindings| == 0 then []
    else Contribution(data, bindings[0]) + ResolverEntries(data, bindings[1..])
  }

  /** What one binding adds: its entry when usable, nothing otherwise. */
  function Contribution(data: map<string, Value>, binding: Value): (r: seq<Value>)
    requires BindingReady(data, binding)
    ensures |r| <= 1
    ensures forall i :: 0 <= i < |r| ==> r[i].Obj?
  {
    if Usable(binding) then [ResolvedEntry(data, binding)] else []
  }

  /**
   * Declared order, and "used if and only if usable": appending a binding
   * appends its entry exactly when both `resolver` and `itemKey` are truthy.
   */
  lemma {:induction false} ResolverEntriesSnoc(data: map<string, Value>, bindings: seq<Value>, b: Value)
    requires BindingsReady(data, bindings) && BindingReady(data, b)
    ensures BindingsReady(data, bindings + [b])
    ensures ResolverEntries(data, bindings + [b]) == ResolverEntries(data, bindings) + Contribution(data, b)
    decreases |bindings|
  {
    BindingsReadySnoc(data, bindings, b);
    var all := bindings + [b];
    if |bindings| == 0 {
      assert all[1..] == [];
    } else {
      var rest := bindings[1..];
      BindingsReadyTail(data, bindings);
      assert all[0] == bindings[0];
      assert all[1..] == rest + [b];
      ResolverEntriesSnoc(data, rest, b);
      var head := Contribution(data, bindings[0]);
      assert ResolverEntries(data, all) == head + ResolverEntries(data, rest + [b]);
      assert ResolverEntries(data, bindings) == head + ResolverEntries(data, rest);
      ConcatAssoc(head, ResolverEntries(data, rest), Contribution(data, b));
    }
  }

  lemma BindingsReadySnoc(data: map<string, Value>, bindings: seq<Value>, b: Value)
    requires BindingsReady(data, bindings) && BindingReady(data, b)
    ensures BindingsReady(data, bindings + [b])
  {
    var all := bindings + [b];
    forall i | 0 <= i < |all|
      ensures BindingReady(data, all[i])
    {
      if i < |bindings| {
        assert all[i] == bindings[i];
      }
    }
  }

  lemma BindingsReadyTail(data: map<string, Value>, bindings: seq<Value>)
    requires BindingsReady(data, bindings) && |bindings| > 0
    ensures BindingsReady(data, bindings[1..])
  {
    var rest := bindings[1..];
    forall i | 0 <= i < |rest|
      ensures BindingReady(data, rest[i])
    {
      assert rest[i] == bindings[i + 1];
    }
  }

  // ----- one segment ---------------------------------------------------------

  /** `data['title'].resolvers` of a titled segment. */
  function ResolversValue(seg: Segment): Value
    requires Titled(seg)
  {
    GetProp(TitleData(seg), "resolvers")
  }

  /** What `forEach` iterates: nothing when `resolvers` is falsy, its elements when it is an array. */
  function Bindings(seg: Segment): seq<Value>
    requires Titled(seg)
  {
    var rs := ResolversValue(seg);
    if rs.Arr? then rs.items else []
  }

  /**
   * A visited segment the loop body can process without throwing: a truthy
   * `resolvers` is an array (so `forEach` exists), and each binding is ready.
   */
  predicate SegmentReady(seg: Segment)
  {
    Titled(seg) ==>
      var rs := ResolversValue(seg);
      (Truthy(rs) ==> rs.Arr?) && BindingsReady(seg.data, Bindings(seg))
  }

  predicate SegmentsReady(segs: seq<Segment>)
  {
    forall i :: 0 <= i < |segs| ==> SegmentReady(segs[i])
  }

  /** The chain the service's `map` pass can walk: every visited segment is ready. */
  predicate ChainReady(chain: seq<Segment>)
  {
    |chain| >= 1 && SegmentsReady(Visited(chain))
  }

  /**
   * One loop iteration's pushes: the resolver entries first, then the
   * segment's own title object; an untitled segment pushes nothing.
   */
  function SegmentEntries(seg: Segment): (r: seq<Value>)
    requires SegmentReady(seg)
    ensures |r| > 0 <==> Titled(seg)
    ensures AllDefined(r)
    ensures Titled(seg) ==> r[|r| - 1] == TitleData(seg)
    ensures Titled(seg) ==> r[..|r| - 1] == ResolverEntries(seg.data, Bindings(seg))
  {
    if Titled(seg) then ResolverEntries(seg.data, Bindings(seg)) + [TitleData(seg)] else []
  }

  // ----- the walk --------------------------------------------------------

  /** Everything the loop pushes while visiting `segs` in order. */
  function Collect(segs: seq<Segment>): (r: seq<Value>)
    requires SegmentsReady(segs)
    ensures AllDefined(r)
    ensures |r| >= |AppComponent.AppCollect(segs)|
    decreases |segs|
  {
    if |segs| == 0 then []
    else
      var front := segs[..|segs| - 1];
      assert SegmentsReady(front) by {
        assert forall i :: 0 <= i < |front| ==> front[i] == segs[i];
      }
      Collect(front) + SegmentEntries(segs[|segs| - 1])
  }

  /** Collecting over a concatenation collects over each part, in order. */
  lemma {:induction false} CollectAppend(a: seq<Segment>, b: seq<Segment>)
    requires SegmentsReady(a) && SegmentsReady(b)
    ensures SegmentsReady(a + b)
    ensures Collect(a + b) == Collect(a) + Collect(b)
    decreases |b|
  {
    ReadyConcat(a, b);
    if |b| == 0 {
      assert a + b == a;
    } else {
      var bf := b[..|b| - 1];
      ReadyPrefix(b, |b| - 1);
      assert (a + b)[..|a + b| - 1] == a + bf;
      assert (a + b)[|a + b| - 1] == b[|b| - 1];
      CollectAppend(a, bf);
      CollectLast(a + b);
      CollectLast(b);
      ConcatAssoc(Collect(a), Collect(bf), SegmentEntries(b[|b| - 1]));
    }
  }

  lemma ConcatAssoc(x: seq<Value>, y: seq<Value>, z: seq<Value>)
    ensures (x + y) + z == x + (y + z)
  {
  }

  /** Two runs of ready segments make a ready run. */
  lemma ReadyConcat(a: seq<Segment>, b: seq<Segment>)
    requires SegmentsReady(a) && SegmentsReady(b)
    ensures SegmentsReady(a + b)
  {
    forall i | 0 <= i < |a + b|
      ensures SegmentReady((a + b)[i])
    {
      if i < |a| {
        assert (a + b)[i] == a[i];
      } else {
        assert (a + b)[i] == b[i - |a|];
      }
    }
  }

  /** The last segment's entries come after everything collected before it. */
  lemma CollectLast(segs: seq<Segment>)
    requires SegmentsReady(segs) && |segs| >= 1
    ensures SegmentsReady(segs[..|segs| - 1])
    ensures Collect(segs) == Collect(segs[..|segs| - 1]) + SegmentEntries(segs[|segs| - 1])
  {
    ReadyPrefix(segs, |segs| - 1);
  }

  /** A segment with no usable binding contributes what it did in the first revision. */
  predicate NoUsableBindings(seg: Segment)
    requires SegmentReady(seg)
  {
    Titled(seg) ==> ResolverEntries(seg.data, Bindings(seg)) == []
  }

  /**
   * Without resolver expansion the two revisions collect the same entries:
   * each titled segment's title object, in visit order.
   */
  lemma {:induction false} CollectMatchesFirstRevision(segs: seq<Segment>)
    requires SegmentsReady(segs)
    requires forall i :: 0 <= i < |segs| ==> NoUsableBindings(segs[i])
    ensures Collect(segs) == AppComponent.AppCollect(segs)
    decreases |segs|
  {
    if |segs| > 0 {
      var front := segs[..|segs| - 1];
      assert forall i :: 0 <= i < |front| ==> front[i] == segs[i];
      CollectMatchesFirstRevision(front);
      var last := segs[|segs| - 1];
      assert NoUsableBindings(last);
    }
  }

  /**
   * The `map(...)` closure's value: the collected entries when the deepest
   * segment is titled, else the previous result unchanged.
   */
  function ResolvePass(chain: seq<Segment>, prev: seq<Value>): (r: seq<Value>)
    requires ChainReady(chain)
    ensures !Titled(Deepest(chain)) ==> r == prev
    ensures Titled(Deepest(chain)) ==> r == Collect(Visited(chain))
    ensures Titled(Deepest(chain)) && |chain| == 1 ==> r == []
    ensures Titled(Deepest(chain)) && |chain| >= 2 ==> |r| >= 1 && r[|r| - 1] == TitleData(Deepest(chain))
    ensures AllDefined(prev) ==> AllDefined(r)
  {
    if Titled(Deepest(chain)) then Collect(Visited(chain)) else prev
  }

  /** A titled deepest segment replaces the previous result outright: it makes no difference what that was. */
  lemma TitledDeepestDiscardsPrevious(chain: seq<Segment>, prev: seq<Value>, other: seq<Value>)
    requires ChainReady(chain) && Titled(Deepest(chain))
    ensures ResolvePass(chain, prev) == ResolvePass(chain, other)
  {
  }

  /** A prefix of ready segments is ready. */
  lemma ReadyPrefix(segs: seq<Segment>, m: nat)
    requires SegmentsReady(segs) && m <= |segs|
    ensures SegmentsReady(segs[..m])
  {
    forall i | 0 <= i < m
      ensures SegmentReady(segs[..m][i])
    {
      assert segs[..m][i] == segs[i];
    }
  }

  /** One more step of the walk adds the next segment's entries. */
  lemma CollectStep(visited: seq<Segment>, j: nat)
    requires SegmentsReady(visited) && j < |visited|
    ensures SegmentsReady(visited[..j]) && SegmentsReady(visited[..j + 1])
    ensures Collect(visited[..j + 1]) == Collect(visited[..j]) + SegmentEntries(visited[j])
  {
    ReadyPrefix(visited, j);
    ReadyPrefix(visited, j + 1);
    CollectLast(visited[..j + 1]);
    assert visited[..j + 1][..j] == visited[..j];
    assert visited[..j + 1][j] == visited[j];
  }

  /** The `map(...)` closure as written: the `while (child.firstChild)` walk, then the deepest-segment test. */
  method MapPass(chain: seq<Segment>, prev: seq<Value>) returns (result: seq<Value>)
    requires ChainReady(chain)
    ensures result == ResolvePass(chain, prev)
  {
    var visited := Visited(chain);
    var j := 0;
    var child := chain[0];
    var titles: seq<Value> := [];
    ReadyPrefix(visited, 0);
    while j < |visited|
      invariant 0 <= j <= |visited|
      invariant child == chain[j]
      invariant SegmentsReady(visited[..j])
      invariant titles == Collect(visited[..j])
    {
      child := chain[j + 1];
      CollectStep(visited, j);
      titles := titles + SegmentEntries(child);
      j := j + 1;
    }
    assert visited[..j] == visited;
    assert child == Deepest(chain);
    if Titled(child) {
      result := titles;
    } else {
      result := prev;
    }
  }

  /** The first chain element never contributes an entry: replacing it changes nothing once there is a second element. */
  lemma FirstSegmentNeverContributes(a: Segment, b: Segment, rest: seq<Segment>, prev: seq<Value>)
    requires |rest| >= 1 && SegmentsReady(rest)
    ensures ChainReady([a] + rest) && ChainReady([b] + rest)
    ensures ResolvePass([a] + rest, prev) == ResolvePass([b] + rest, prev)
  {
    assert Visited([a] + rest) == rest == Visited([b] + rest);
    assert Deepest([a] + rest) == Deepest(rest) == Deepest([b] + rest);
  }

  // ----- the session -------------------------------------------------------

  /** The state that outlives one navigation: the closure's `result` and the public `routeTitles`. */
  datatype Session = Session(result: seq<Value>, routeTitles: Option<seq<Value>>)

  /** Every remembered entry is defined, so reading its `label` cannot throw. */
  predicate SessionOk(s: Session)
  {
    AllDefined(s.result) && (s.routeTitles.Some? ==> AllDefined(s.routeTitles.value))
  }

  /** `result` as the constructor leaves it: `[title.getTitle()]`, a bare string; `routeTitles` unset. */
  function InitialSession(docTitle: string): (s: Session)
    ensures SessionOk(s)
    ensures |s.result| == 1 && Label(s.result[0]) == Undefined
    ensures s.result[0].Str? && Render(s.result[0]) == docTitle
    ensures s.routeTitles.None?
  {
    Session([Str(docTitle)], None)
  }

  /** `t.label`. */
  function Label(e: Value): Value
    requires e != Undefined
  {
    GetProp(e, "label")
  }

  /** `titles.map((t) => t.label)`. */
  function Labels(entries: seq<Value>): (r: seq<Value>)
    requires AllDefined(entries)
    ensures |r| == |entries|
    ensures forall i :: 0 <= i < |entries| ==> r[i] == Label(entries[i])
  {
    seq(|entries|, i requires 0 <= i < |entries| && AllDefined(entries) => Label(entries[i]))
  }

  /** `titles.map((t) => t.label).join(': ')`. */
  function JoinLabels(entries: seq<Value>): string
    requires AllDefined(entries)
  {
    Join(Labels(entries), ": ")
  }

  /** The session after a navigation, and what was handed to `Title.setTitle`, if anything. */
  datatype Step = Step(session: Session, published: Option<string>)

  /**
   * One navigation: the `map` pass, then the subscriber. A non-empty list
   * becomes `routeTitles` and its joined labels are published; an empty list
   * leaves `routeTitles` alone and publishes nothing.
   */
  function Navigate(s: Session, chain: seq<Segment>): (r: Step)
    requires SessionOk(s) && ChainReady(chain)
    ensures SessionOk(r.session)
    ensures r.session.result == ResolvePass(chain, s.result)
    ensures r.published.Some? <==> |r.session.result| > 0
    ensures r.published.Some? ==>
              r.session.routeTitles == Some(r.session.result)
              && r.published.value == JoinLabels(r.session.result)
    ensures r.published.None? ==> r.session.routeTitles == s.routeTitles
  {
    var titles := ResolvePass(chain, s.result);
    if |titles| > 0 then Step(Session(titles, Some(titles)), Some(JoinLabels(titles)))
    else Step(Session(titles, s.routeTitles), None)
  }

  /** `setTitle(title?)`: publishes the joined labels of `routeTitles`; the argument is never read. */
  function SetTitle(s: Session, title: Option<string>): (r: string)
    requires SessionOk(s) && s.routeTitles.Some?
    ensures |s.routeTitles.value| == 1 ==> r == Render(Label(s.routeTitles.value[0]))
  {
    JoinLabels(s.routeTitles.value)
  }

  /** Whatever label a caller passes, `setTitle` publishes the same string. */
  lemma SetTitleIgnoresArgument(s: Session, x: Option<string>, y: Option<string>)
    requires SessionOk(s) && s.routeTitles.Some?
    ensures SetTitle(s, x) == SetTitle(s, y)
  {
  }

  /** After a navigation that published, `setTitle(anything)` republishes that same string. */
  lemma SetTitleRepublishesLastNavigation(s: Session, chain: seq<Segment>, x: Option<string>)
    requires SessionOk(s) && ChainReady(chain)
    requires Navigate(s, chain).published.Some?
    ensures Navigate(s, chain).session.routeTitles.Some?
    ensures SetTitle(Navigate(s, chain).session, x) == Navigate(s, chain).published.value
  {
  }

  /** A single entry publishes exactly its label, with no separator. */
  lemma SingleEntryPublishesItsLabel(e: Value)
    requires e != Undefined
    ensures JoinLabels([e]) == Render(Label(e))
  {
  }

  /** Labels of a longer list: the earlier labels, `": "`, then the new label. */
  lemma JoinLabelsSnoc(entries: seq<Value>, e: Value)
    requires AllDefined(entries) && |entries| > 0 && e != Undefined
    ensures AllDefined(entries + [e])
    ensures JoinLabels(entries + [e]) == JoinLabels(entries) + ": " + Render(Label(e))
  {
    assert Labels(entries + [e]) == Labels(entries) + [Label(e)];
    JoinSnoc(Labels(entries), Label(e), ": ");
  }

  /**
   * Stale retention is decided by the deepest segment alone: titled segments
   * higher up are discarded, the previous result is kept and, if non-empty,
   * republished unchanged.
   */
  lemma UntitledDeepestKeepsPrevious(s: Session, chain: seq<Segment>)
    requires SessionOk(s) && ChainReady(chain)
    requires !Titled(Deepest(chain))
    ensures Navigate(s, chain).session.result == s.result
    ensures |s.result| > 0 ==> Navigate(s, chain).published == Some(JoinLabels(s.result))
    ensures |s.result| == 0 ==> Navigate(s, chain) == Step(s, None)
  {
  }

  /**
   * A titled deepest segment below the first element publishes a title that
   * ends with that segment's own label, preceded by `": "` when anything was
   * collected before it.
   */
  lemma TitledDeepestPublishesItsLabelLast(s: Session, chain: seq<Segment>)
    requires SessionOk(s) && ChainReady(chain)
    requires |chain| >= 2 && Titled(Deepest(chain))
    ensures var r := Navigate(s, chain);
      && r.published.Some?
      && var titles := r.session.result;
      && (|titles| == 1 ==> r.published.value == Render(Label(TitleData(Deepest(chain)))))
      && (|titles| > 1 ==>
            r.published.value == JoinLabels(titles[..|titles| - 1]) + ": " + Render(Label(TitleData(Deepest(chain)))))
  {
    var r := Navigate(s, chain);
    var titles := r.session.result;
    var d := TitleData(Deepest(chain));
    assert titles == ResolvePass(chain, s.result);
    assert |titles| >= 1 && titles[|titles| - 1] == d;
    assert r.published == Some(JoinLabels(titles));
    if |titles| > 1 {
      var front := titles[..|titles| - 1];
      assert titles == front + [d];
      JoinLabelsSnoc(front, d);
    } else {
      assert titles == [d];
      SingleEntryPublishesItsLabel(d);
    }
  }

  /** A one-element chain whose element is titled collects nothing, so nothing is published and `routeTitles` stays. */
  lemma LoneTitledSegmentPublishesNothing(s: Session, seg: Segment)
    requires SessionOk(s) && Titled(seg)
    ensures ChainReady([seg])
    ensures Navigate(s, [seg]) == Step(Session([], s.routeTitles), None)
  {
  }

  // ----- the initial title -------------------------------------------------

  /**
   * As written, the first navigation to an untitled deepest segment keeps
   * `[title.getTitle()]`, a bare string whose `label` is `undefined`, and so
   * publishes the empty string: the document title is blanked.
   */
  lemma InitialTitleBlankedByUntitledNavigation(docTitle: string, chain: seq<Segment>)
    requires ChainReady(chain) && !Titled(Deepest(chain))
    ensures Navigate(InitialSession(docTitle), chain).published == Some("")
  {
    assert Labels([Str(docTitle)]) == [Undefined];
  }

  /** The initial state with the document title wrapped as an entry whose `label` is that title. */
  function InitialSessionLabelled(docTitle: string): (s: Session)
    ensures SessionOk(s)
    ensures |s.result| == 1 && Label(s.result[0]) == Str(docTitle)
  {
    Session([Obj(map["label" := Str(docTitle)])], None)
  }

  /** With the labelled initial state, an untitled first navigation republishes the document title. */
  lemma InitialTitleKeptByUntitledNavigation(docTitle: string, chain: seq<Segment>)
    requires ChainReady(chain) && !Titled(Deepest(chain))
    ensures Navigate(InitialSessionLabelled(docTitle), chain).published == Some(docTitle)
  {
    SingleEntryPublishesItsLabel(Obj(map["label" := Str(docTitle)]));
  }
}
