/** How edits of the trie show through `DataAt`: linking an empty node changes nothing, storing a
    target changes one pattern, and an edit below one pattern leaves every other pattern alone. */
module TrieEdit {
  import opened Text
  import opened Trie

  /** Patterns that the trie can hold: everything is named, and only the last step may be a wildcard. */
  predicate WellFormed(p: Pattern) {
    forall k :: 0 <= k < |p| ==> (p[k].Static? || p[k].name != "") && (p[k].Wild? ==> k == |p| - 1)
  }

  /** Each node carries the pattern that leads to it. */
  ghost predicate Labelled(nodes: seq<Node>, labels: seq<Pattern>) {
    && |nodes| == |labels| && 0 < |nodes| && labels[0] == []
    && (forall i :: 0 <= i < |labels| ==> WellFormed(labels[i]))
    && (forall i, step {:trigger Next(nodes[i], step)} :: 0 <= i < |nodes| && Next(nodes[i], step).Some? ==>
          && i < Next(nodes[i], step).value < |nodes|
          && labels[Next(nodes[i], step).value] == labels[i] + [step])
  }

  lemma NothingAfterWild(p: Pattern, step: Step, deeper: Step)
    requires step.Wild?
    ensures !WellFormed(p + [step] + [deeper])
  {
    assert (p + [step] + [deeper])[|p|] == step;
  }

  lemma LabelledIsTidy(nodes: seq<Node>, labels: seq<Pattern>)
    requires Labelled(nodes, labels)
    ensures Ordered(nodes) && Tidy(nodes)
  {
    forall i, step | 0 <= i < |nodes| && Next(nodes[i], step).Some?
      ensures step.Static? || step.name != ""
      ensures step.Wild? ==> Leaf(nodes, Next(nodes[i], step).value)
    {
      var j := Next(nodes[i], step).value;
      assert labels[j] == labels[i] + [step];
      assert labels[j][|labels[i]|] == step;
      if step.Wild? {
        forall deeper
          ensures Next(nodes[j], deeper).None?
        {
          NothingAfterWild(labels[i], step, deeper);
        }
      }
    }
  }

  lemma {:induction false} WalkLabel(nodes: seq<Node>, labels: seq<Pattern>, i: nat, q: Pattern)
    requires Labelled(nodes, labels) && i < |nodes| && Walk(nodes, i, q).Some?
    ensures labels[Walk(nodes, i, q).value] == labels[i] + q
    decreases |nodes| - i
  {
    if q == [] {
      assert labels[i] + q == labels[i];
    } else {
      var j := Next(nodes[i], q[0]).value;
      WalkLabel(nodes, labels, j, q[1..]);
      assert q == [q[0]] + q[1..];
      assert labels[i] + q == labels[i] + [q[0]] + q[1..];
    }
  }

  lemma {:induction false} WalkSplit(nodes: seq<Node>, i: nat, p: Pattern, q: Pattern)
    requires i < |nodes| && Walk(nodes, i, p).Some?
    ensures Walk(nodes, i, p + q) == Walk(nodes, Walk(nodes, i, p).value, q)
    decreases |nodes| - i
  {
    if p == [] {
      assert p + q == q;
    } else {
      assert (p + q)[1..] == p[1..] + q;
      WalkSplit(nodes, Next(nodes[i], p[0]).value, p[1..], q);
    }
  }

  /** Where a longer pattern leads somewhere, so does its front. */
  lemma {:induction false} WalkFront(nodes: seq<Node>, i: nat, p: Pattern, q: Pattern)
    requires i < |nodes| && Walk(nodes, i, p + q).Some?
    ensures Walk(nodes, i, p).Some?
    decreases |nodes| - i
  {
    if p != [] {
      assert (p + q)[1..] == p[1..] + q;
      WalkFront(nodes, Next(nodes[i], p[0]).value, p[1..], q);
    }
  }

  /** Only distinct patterns lead to distinct nodes. */
  lemma OnePatternPerNode(nodes: seq<Node>, labels: seq<Pattern>, p: Pattern, q: Pattern)
    requires Labelled(nodes, labels)
    requires Walk(nodes, 0, p).Some? && Walk(nodes, 0, p) == Walk(nodes, 0, q)
    ensures p == q
  {
    WalkLabel(nodes, labels, 0, p);
    WalkLabel(nodes, labels, 0, q);
    assert [] + p == p && [] + q == q;
  }

  // ---------------------------------------------------------------- linking a new node

  function WithChild(node: Node, step: Step, j: nat): Node {
    match step
    case Static(text) => node.(statics := node.statics[text := j])
    case Param(name) => node.(parameter := Some(Child(name, j)))
    case Wild(name) => node.(wildcard := Some(Child(name, j)))
  }

  /** The slot for the step is free. */
  predicate Free(node: Node, step: Step) {
    match step
    case Static(text) => text !in node.statics
    case Param(_) => node.parameter.None?
    case Wild(_) => node.wildcard.None?
  }

  lemma WithChildNext(node: Node, step: Step, j: nat)
    requires Free(node, step)
    ensures Next(node, step).None? && Next(WithChild(node, step, j), step) == Some(j)
    ensures forall other :: other != step ==> Next(WithChild(node, step, j), other) == Next(node, other)
  {
  }

  function Link(nodes: seq<Node>, i: nat, step: Step): seq<Node>
    requires i < |nodes|
  {
    (nodes + [EMPTY_NODE])[i := WithChild(nodes[i], step, |nodes|)]
  }

  lemma {:induction false} LinkWalk(nodes: seq<Node>, i: nat, step: Step, j: nat, q: Pattern)
    requires Ordered(nodes) && i < |nodes| && j < |nodes| && Free(nodes[i], step)
    ensures var r := Walk(Link(nodes, i, step), j, q);
            if Walk(nodes, j, q).Some? then r == Walk(nodes, j, q) else r.None? || r == Some(|nodes|)
    decreases |nodes| - j
  {
    var linked := Link(nodes, i, step);
    WithChildNext(nodes[i], step, |nodes|);
    if q != [] {
      var next := Next(nodes[j], q[0]);
      if next.Some? {
        LinkWalk(nodes, i, step, next.value, q[1..]);
      } else if Next(linked[j], q[0]).Some? && q[1..] != [] {
        assert Next(EMPTY_NODE, q[1..][0]).None?;
      }
    }
  }

  /** A new empty node is invisible, and it is labelled by its parent's pattern and the step. */
  lemma LinkIsInvisible(nodes: seq<Node>, labels: seq<Pattern>, i: nat, step: Step)
    requires Labelled(nodes, labels) && i < |nodes| && Free(nodes[i], step)
    requires WellFormed(labels[i] + [step])
    ensures Labelled(Link(nodes, i, step), labels + [labels[i] + [step]])
    ensures forall q :: DataAt(Link(nodes, i, step), 0, q) == DataAt(nodes, 0, q)
  {
    LabelledIsTidy(nodes, labels);
    WithChildNext(nodes[i], step, |nodes|);
    var linked := Link(nodes, i, step);
    assert forall other :: Next(EMPTY_NODE, other).None?;
    forall q
      ensures DataAt(linked, 0, q) == DataAt(nodes, 0, q)
    {
      LinkWalk(nodes, i, step, 0, q);
    }
  }

  // ---------------------------------------------------------------- storing data

  lemma {:induction false} StoreWalk(nodes: seq<Node>, n: nat, data: NodeData, i: nat, q: Pattern)
    requires i < |nodes| && n < |nodes|
    ensures Walk(nodes[n := nodes[n].(data := data)], i, q) == Walk(nodes, i, q)
    decreases |nodes| - i
  {
    var stored := nodes[n := nodes[n].(data := data)];
    if q != [] {
      assert Next(stored[i], q[0]) == Next(nodes[i], q[0]);
      var next := Next(nodes[i], q[0]);
      if next.Some? && i < next.value < |nodes| {
        StoreWalk(nodes, n, data, next.value, q[1..]);
      }
    }
  }

  /** Storing data at a node changes what is stored under its pattern and nothing else. */
  lemma StoreShows(nodes: seq<Node>, labels: seq<Pattern>, n: nat, data: NodeData, p: Pattern)
    requires Labelled(nodes, labels) && Walk(nodes, 0, p) == Some(n)
    ensures var stored := nodes[n := nodes[n].(data := data)];
            && Labelled(stored, labels) && Walk(stored, 0, p) == Some(n)
            && forall q :: DataAt(stored, 0, q) == if q == p then data else DataAt(nodes, 0, q)
  {
    var stored := nodes[n := nodes[n].(data := data)];
    assert forall i, step :: 0 <= i < |nodes| ==> Next(stored[i], step) == Next(nodes[i], step);
    StoreWalk(nodes, n, data, 0, p);
    forall q
      ensures DataAt(stored, 0, q) == if q == p then data else DataAt(nodes, 0, q)
    {
      StoreWalk(nodes, n, data, 0, q);
      if Walk(nodes, 0, q) == Some(n) {
        OnePatternPerNode(nodes, labels, p, q);
      }
    }
  }

  // ---------------------------------------------------------------- edits below one pattern

  /** The new trie differs from the old one only at nodes under `p`, and by new nodes. */
  ghost predicate ChangedBelow(
      nodes: seq<Node>, labels: seq<Pattern>, after: seq<Node>, labelsAfter: seq<Pattern>, p: Pattern) {
    && Labelled(nodes, labels) && Labelled(after, labelsAfter) && labels <= labelsAfter
    && forall k :: 0 <= k < |nodes| && !(p <= labels[k]) ==> after[k] == nodes[k]
  }

  lemma PrefixGrows(p: Pattern, a: Pattern, b: Pattern)
    ensures p <= a ==> p <= a + b
    ensures |p| <= |a| && p <= a + b ==> p <= a
  {
    assert |p| <= |a| ==> (a + b)[..|p|] == a[..|p|];
  }

  lemma {:induction false} OutsideSame(
      nodes: seq<Node>, labels: seq<Pattern>, after: seq<Node>, labelsAfter: seq<Pattern>,
      p: Pattern, i: nat, q: Pattern)
    requires ChangedBelow(nodes, labels, after, labelsAfter, p)
    requires i < |nodes| && !(p <= labels[i] + q)
    ensures DataAt(after, i, q) == DataAt(nodes, i, q)
    ensures Walk(after, i, q) == Walk(nodes, i, q)
    decreases |nodes| - i
  {
    PrefixGrows(p, labels[i], q);
    assert after[i] == nodes[i];
    if q != [] && Next(nodes[i], q[0]).Some? {
      var j := Next(nodes[i], q[0]).value;
      assert q == [q[0]] + q[1..];
      assert labels[i] + q == labels[j] + q[1..];
      OutsideSame(nodes, labels, after, labelsAfter, p, j, q[1..]);
    }
  }

  lemma DataBelow(nodes: seq<Node>, d: nat, step: Step, q: Pattern)
    requires d < |nodes| && (Next(nodes[d], step).Some? ==> d < Next(nodes[d], step).value < |nodes|)
    ensures DataAt(nodes, d, [step] + q) ==
            if Next(nodes[d], step).Some? then DataAt(nodes, Next(nodes[d], step).value, q) else EMPTY_DATA
  {
    assert ([step] + q)[1..] == q;
  }

  /** An edit that stays below one child of a node leaves the node's other children alone. */
  lemma SiblingsSame(
      nodes: seq<Node>, labels: seq<Pattern>, after: seq<Node>, labelsAfter: seq<Pattern>,
      d: nat, step: Step, other: Step, q: Pattern)
    requires Labelled(nodes, labels) && Labelled(after, labelsAfter) && labels <= labelsAfter && d < |nodes|
    requires forall k :: 0 <= k < |nodes| && k != d && !(labels[d] + [step] <= labels[k]) ==> after[k] == nodes[k]
    requires other != step && Next(after[d], other) == Next(nodes[d], other)
    ensures DataAt(after, d, [other] + q) == DataAt(nodes, d, [other] + q)
  {
    hide Walk;
    DataBelow(nodes, d, other, q);
    DataBelow(after, d, other, q);
    if Next(nodes[d], other).Some? {
      var j := Next(nodes[d], other).value;
      assert (labels[d] + [step])[|labels[d]|] == step && labels[j][|labels[d]|] == other;
      SameFrom(nodes, labels, after, labelsAfter, d, labels[d] + [step], j, q);
    }
  }

  lemma {:induction false} SameFrom(
      nodes: seq<Node>, labels: seq<Pattern>, after: seq<Node>, labelsAfter: seq<Pattern>,
      d: nat, p: Pattern, i: nat, q: Pattern)
    requires Labelled(nodes, labels) && Labelled(after, labelsAfter) && labels <= labelsAfter
    requires d < i < |nodes|
    requires forall k :: 0 <= k < |nodes| && k != d && !(p <= labels[k]) ==> after[k] == nodes[k]
    requires |p| <= |labels[i]| && !(p <= labels[i])
    ensures DataAt(after, i, q) == DataAt(nodes, i, q)
    decreases |nodes| - i
  {
    assert after[i] == nodes[i];
    if q != [] && Next(nodes[i], q[0]).Some? {
      var j := Next(nodes[i], q[0]).value;
      PrefixGrows(p, labels[i], [q[0]]);
      SameFrom(nodes, labels, after, labelsAfter, d, p, j, q[1..]);
    }
  }

  // ---------------------------------------------------------------- merging two tries

  function MergeData(a: NodeData, b: NodeData): NodeData {
    NodeData(a.targets + b.targets,
             a.onRequest + b.onRequest,
             a.preHandler + b.preHandler,
             a.onResponse + b.onResponse,
             if b.notFound.Some? then b.notFound else a.notFound,
             if b.exceptionHandler.Some? then b.exceptionHandler else a.exceptionHandler)
  }

  lemma MergeEmpty(a: NodeData)
    ensures MergeData(a, EMPTY_DATA) == a && MergeData(EMPTY_DATA, a) == a
  {
    assert a.targets + map[] == a.targets && map[] + a.targets == a.targets;
  }

  /** Nothing stored in both, and no differently named parameter or wildcard child. */
  predicate Compatible(a: Node, b: Node) {
    && a.data.targets.Keys !! b.data.targets.Keys
    && !(a.data.notFound.Some? && b.data.notFound.Some?)
    && !(a.data.exceptionHandler.Some? && b.data.exceptionHandler.Some?)
    && (a.parameter.Some? && b.parameter.Some? ==> a.parameter.value.name == b.parameter.value.name)
    && (a.wildcard.Some? && b.wildcard.Some? ==> a.wildcard.value.name == b.wildcard.value.name)
  }

  /** What `validate_mount_node` checks: the two tries wherever both have a node. */
  ghost predicate CanMerge(nodes: seq<Node>, mounted: seq<Node>, d: nat, s: nat)
    requires Ordered(nodes) && Ordered(mounted) && d < |nodes| && s < |mounted|
    decreases |mounted| - s
  {
    && Compatible(nodes[d], mounted[s])
    && forall step {:trigger Next(nodes[d], step), Next(mounted[s], step)} ::
         Next(nodes[d], step).Some? && Next(mounted[s], step).Some? ==>
           CanMerge(nodes, mounted, Next(nodes[d], step).value, Next(mounted[s], step).value)
  }

  /** Wherever both tries have a node for the same pattern, the two are compatible. */
  ghost predicate CompatibleEverywhere(nodes: seq<Node>, mounted: seq<Node>, d: nat, s: nat)
    requires d < |nodes| && s < |mounted|
  {
    forall q :: Walk(nodes, d, q).Some? && Walk(mounted, s, q).Some? ==>
                  Compatible(nodes[Walk(nodes, d, q).value], mounted[Walk(mounted, s, q).value])
  }

  /** An empty node is compatible with anything. */
  lemma EmptyCompatible(nodes: seq<Node>, mounted: seq<Node>, d: nat, s: nat)
    requires d < |nodes| && s < |mounted| && nodes[d] == EMPTY_NODE
    ensures CompatibleEverywhere(nodes, mounted, d, s)
  {
    assert forall step :: Next(EMPTY_NODE, step).None?;
  }

  lemma WalkDown(nodes: seq<Node>, d: nat, step: Step, q: Pattern)
    requires Ordered(nodes) && d < |nodes|
    ensures Walk(nodes, d, [step] + q) ==
            if Next(nodes[d], step).Some? then Walk(nodes, Next(nodes[d], step).value, q) else None
  {
    assert ([step] + q)[1..] == q;
  }

  lemma {:induction false} CanMergeSound(nodes: seq<Node>, mounted: seq<Node>, d: nat, s: nat)
    requires Ordered(nodes) && Ordered(mounted) && d < |nodes| && s < |mounted|
    requires CanMerge(nodes, mounted, d, s)
    ensures CompatibleEverywhere(nodes, mounted, d, s)
    decreases |mounted| - s
  {
    hide Compatible, Walk;
    forall q | Walk(nodes, d, q).Some? && Walk(mounted, s, q).Some?
      ensures Compatible(nodes[Walk(nodes, d, q).value], mounted[Walk(mounted, s, q).value])
    {
      if q == [] {
        WalkNowhere(nodes, d);
        WalkNowhere(mounted, s);
      } else {
        assert q == [q[0]] + q[1..];
        WalkDown(nodes, d, q[0], q[1..]);
        WalkDown(mounted, s, q[0], q[1..]);
        CanMergeSound(nodes, mounted, Next(nodes[d], q[0]).value, Next(mounted[s], q[0]).value);
      }
    }
  }

  lemma WalkNowhere(nodes: seq<Node>, d: nat)
    requires d < |nodes|
    ensures Walk(nodes, d, []) == Some(d)
  {
  }

  lemma {:induction false} CanMergeComplete(nodes: seq<Node>, mounted: seq<Node>, d: nat, s: nat)
    requires Ordered(nodes) && Ordered(mounted) && d < |nodes| && s < |mounted|
    requires CompatibleEverywhere(nodes, mounted, d, s)
    ensures CanMerge(nodes, mounted, d, s)
    decreases |mounted| - s
  {
    hide Compatible, Walk;
    WalkNowhere(nodes, d);
    WalkNowhere(mounted, s);
    forall step | Next(nodes[d], step).Some? && Next(mounted[s], step).Some?
      ensures CanMerge(nodes, mounted, Next(nodes[d], step).value, Next(mounted[s], step).value)
    {
      var d', s' := Next(nodes[d], step).value, Next(mounted[s], step).value;
      forall q | Walk(nodes, d', q).Some? && Walk(mounted, s', q).Some?
        ensures Compatible(nodes[Walk(nodes, d', q).value], mounted[Walk(mounted, s', q).value])
      {
        WalkDown(nodes, d, step, q);
        WalkDown(mounted, s, step, q);
      }
      CanMergeComplete(nodes, mounted, d', s');
    }
  }

  /** Validation accepts exactly when the nodes found under every shared pattern are compatible. */
  lemma CanMergeExact(nodes: seq<Node>, mounted: seq<Node>, d: nat, s: nat)
    requires Ordered(nodes) && Ordered(mounted) && d < |nodes| && s < |mounted|
    ensures CanMerge(nodes, mounted, d, s) <==> CompatibleEverywhere(nodes, mounted, d, s)
  {
    hide CanMerge, CompatibleEverywhere;
    if CanMerge(nodes, mounted, d, s) {
      CanMergeSound(nodes, mounted, d, s);
    }
    if CompatibleEverywhere(nodes, mounted, d, s) {
      CanMergeComplete(nodes, mounted, d, s);
    }
  }

  // ---------------------------------------------------------------- which clash is reported

  datatype Clash = RouteClash | NotFoundClash | ExceptionClash | ParameterClash | WildcardClash

  predicate NamesDiffer(a: Option<Child>, b: Option<Child>) {
    a.Some? && b.Some? && a.value.name != b.value.name
  }

  /** What each report says of the two nodes. */
  predicate Clashes(a: Node, b: Node, clash: Clash) {
    match clash
    case RouteClash => !(a.data.targets.Keys !! b.data.targets.Keys)
    case NotFoundClash => a.data.notFound.Some? && b.data.notFound.Some?
    case ExceptionClash => a.data.exceptionHandler.Some? && b.data.exceptionHandler.Some?
    case ParameterClash => NamesDiffer(a.parameter, b.parameter)
    case WildcardClash => NamesDiffer(a.wildcard, b.wildcard)
  }

  /** What is stored in both nodes, the first of three. */
  function StoredClash(a: Node, b: Node): Option<Clash> {
    if !(a.data.targets.Keys !! b.data.targets.Keys) then Some(RouteClash)
    else if a.data.notFound.Some? && b.data.notFound.Some? then Some(NotFoundClash)
    else if a.data.exceptionHandler.Some? && b.data.exceptionHandler.Some? then Some(ExceptionClash)
    else None
  }

  lemma CompatibleClashes(a: Node, b: Node)
    ensures Compatible(a, b) <==> forall clash :: !Clashes(a, b, clash)
    ensures StoredClash(a, b).Some? ==> Clashes(a, b, StoredClash(a, b).value)
    ensures Compatible(a, b) <==>
              StoredClash(a, b).None? && !NamesDiffer(a.parameter, b.parameter) && !NamesDiffer(a.wildcard, b.wildcard)
  {
    if forall clash :: !Clashes(a, b, clash) {
      assert !Clashes(a, b, RouteClash) && !Clashes(a, b, NotFoundClash) && !Clashes(a, b, ExceptionClash);
      assert !Clashes(a, b, ParameterClash) && !Clashes(a, b, WildcardClash);
    }
    if Compatible(a, b) {
      forall clash ensures !Clashes(a, b, clash) {
        match clash
        case RouteClash =>
        case NotFoundClash =>
        case ExceptionClash =>
        case ParameterClash =>
        case WildcardClash =>
      }
    }
  }

  /** Both nodes have the child, and the tries below do not go together. */
  ghost predicate ChildClash(nodes: seq<Node>, mounted: seq<Node>, d: nat, s: nat, step: Step)
    requires Ordered(nodes) && Ordered(mounted) && d < |nodes| && s < |mounted|
  {
    && Next(nodes[d], step).Some? && Next(mounted[s], step).Some?
    && !CanMerge(nodes, mounted, Next(nodes[d], step).value, Next(mounted[s], step).value)
  }

  /** The reports `validate_mount_node` may end with: the node itself first, then one of the clashing static
      children, whose order is not specified, then the parameter and the wildcard, name before child. */
  ghost predicate Reports(nodes: seq<Node>, mounted: seq<Node>, d: nat, s: nat, clash: Clash)
    requires Ordered(nodes) && Ordered(mounted) && d < |nodes| && s < |mounted|
    decreases |mounted| - s
  {
    var a, b := nodes[d], mounted[s];
    if StoredClash(a, b).Some? then clash == StoredClash(a, b).value
    else if exists text :: ChildClash(nodes, mounted, d, s, Static(text)) then
      exists text ::
        && ChildClash(nodes, mounted, d, s, Static(text))
        && Reports(nodes, mounted, Next(a, Static(text)).value, Next(b, Static(text)).value, clash)
    else if NamesDiffer(a.parameter, b.parameter) then clash == ParameterClash
    else if b.parameter.Some? && ChildClash(nodes, mounted, d, s, Param(b.parameter.value.name)) then
      var step := Param(b.parameter.value.name);
      Reports(nodes, mounted, Next(a, step).value, Next(b, step).value, clash)
    else if NamesDiffer(a.wildcard, b.wildcard) then clash == WildcardClash
    else
      && b.wildcard.Some? && ChildClash(nodes, mounted, d, s, Wild(b.wildcard.value.name))
      && var step := Wild(b.wildcard.value.name);
         Reports(nodes, mounted, Next(a, step).value, Next(b, step).value, clash)
  }

  /** The reported clash is there, at a pattern both tries have. */
  lemma {:induction false} ReportIsReal(nodes: seq<Node>, mounted: seq<Node>, d: nat, s: nat, clash: Clash)
    returns (q: Pattern)
    requires Ordered(nodes) && Ordered(mounted) && d < |nodes| && s < |mounted|
    requires Reports(nodes, mounted, d, s, clash)
    ensures Walk(nodes, d, q).Some? && Walk(mounted, s, q).Some?
    ensures Clashes(nodes[Walk(nodes, d, q).value], mounted[Walk(mounted, s, q).value], clash)
    decreases |mounted| - s
  {
    hide Walk, CanMerge, Compatible;
    var a, b := nodes[d], mounted[s];
    WalkNowhere(nodes, d);
    WalkNowhere(mounted, s);
    CompatibleClashes(a, b);
    if Clashes(a, b, clash) {
      q := [];
    } else {
      var step;
      if text :| ChildClash(nodes, mounted, d, s, Static(text))
                 && Reports(nodes, mounted, Next(a, Static(text)).value, Next(b, Static(text)).value, clash) {
        step := Static(text);
      } else if b.parameter.Some? && ChildClash(nodes, mounted, d, s, Param(b.parameter.value.name)) {
        step := Param(b.parameter.value.name);
      } else {
        step := Wild(b.wildcard.value.name);
      }
      var rest := ReportIsReal(nodes, mounted, Next(a, step).value, Next(b, step).value, clash);
      q := [step] + rest;
      WalkDown(nodes, d, step, rest);
      WalkDown(mounted, s, step, rest);
    }
  }
}
