/** The router object: registration, hooks, mounting and matching over the index-linked trie. */
module Router {
  import opened Text
  import opened RoutePath
  import opened Trie
  import opened TrieEdit
  import opened RouteText

  /** `method::unknown` is the last method index. */
  const METHOD_COUNT := 10
  const ROUTED_METHODS := 9

  datatype Error =
    | MethodOutOfRange
    | InvalidEscape
    | WildcardUnnamed
    | WildcardNotFinal
    | WildcardConflict
    | WildcardInPrefix
    | ParameterUnnamed
    | ParameterConflict
    | AlreadyRegistered
    | MountsItself
    | MatchingModeConflict
    | MountConflict(clash: Clash)

  type Routes = map<(nat, Pattern), Target>

  /** Why a step from a node is refused. */
  function StepError(node: Node, step: Step, isLast: bool, isPrefix: bool): Option<Error> {
    match step
    case Wild(name) =>
      if isPrefix then Some(WildcardInPrefix)
      else if name == "" then Some(WildcardUnnamed)
      else if !isLast then Some(WildcardNotFinal)
      else if node.wildcard.Some? && node.wildcard.value.name != name then Some(WildcardConflict)
      else None
    case Param(name) =>
      if name == "" then Some(ParameterUnnamed)
      else if node.parameter.Some? && node.parameter.value.name != name then Some(ParameterConflict)
      else None
    case Static(_) => None
  }

  /** Why walking down `steps` from node `i`, creating nodes as needed, is refused. */
  function DescendError(nodes: seq<Node>, i: nat, steps: Pattern, isPrefix: bool): (r: Option<Error>)
    requires i < |nodes|
    ensures r.Some? ==> !r.value.MountConflict?
    decreases |steps|
  {
    if steps == [] then None
    else
      var refused := StepError(nodes[i], steps[0], |steps| == 1, isPrefix);
      if refused.Some? then refused
      else
        match Next(nodes[i], steps[0])
        case Some(j) => if j < |nodes| then DescendError(nodes, j, steps[1..], isPrefix) else None
        case None => DescendError([EMPTY_NODE], 0, steps[1..], isPrefix)
  }

  lemma DescendFromEmpty(nodes: seq<Node>, i: nat, steps: Pattern, isPrefix: bool)
    requires i < |nodes| && nodes[i] == EMPTY_NODE
    ensures DescendError(nodes, i, steps, isPrefix) == DescendError([EMPTY_NODE], 0, steps, isPrefix)
  {
  }

  lemma DescendUnfold(nodes: seq<Node>, i: nat, steps: Pattern, isPrefix: bool)
    requires i < |nodes|
    ensures steps == [] ==> DescendError(nodes, i, steps, isPrefix).None?
    ensures steps != [] ==>
              var refused := StepError(nodes[i], steps[0], |steps| == 1, isPrefix);
              && (refused.Some? ==> DescendError(nodes, i, steps, isPrefix) == refused)
              && (refused.None? && Next(nodes[i], steps[0]).None? ==>
                    DescendError(nodes, i, steps, isPrefix)
                    == DescendError([EMPTY_NODE], 0, steps[1..], isPrefix))
              && (refused.None? && Next(nodes[i], steps[0]).Some? && Next(nodes[i], steps[0]).value < |nodes| ==>
                    DescendError(nodes, i, steps, isPrefix)
                    == DescendError(nodes, Next(nodes[i], steps[0]).value, steps[1..], isPrefix))
  {
  }

  predicate NoWild(p: Pattern) {
    forall k :: 0 <= k < |p| ==> !p[k].Wild?
  }

  predicate Named(p: Pattern) {
    forall k :: 0 <= k < |p| ==> p[k].Static? || p[k].name != ""
  }

  /** A step that is not refused is named, is a wildcard only at the end of a route, and has its slot
      free or already in use by the same name. */
  lemma StepIsSound(node: Node, steps: Pattern, index: nat, isPrefix: bool)
    requires index < |steps| && StepError(node, steps[index], index + 1 == |steps|, isPrefix).None?
    requires NoWild(steps[..index]) && Named(steps[..index])
    ensures Next(node, steps[index]).Some? || Free(node, steps[index])
    ensures WellFormed(steps[..index] + [steps[index]])
    ensures Named(steps[..index + 1])
    ensures index + 1 < |steps| || isPrefix ==> NoWild(steps[..index + 1])
  {
  }

  lemma RootLabel(nodes: seq<Node>, labels: seq<Pattern>)
    requires Labelled(nodes, labels)
    ensures 0 < |nodes| == |labels| && labels[0] == [] && Walk(nodes, 0, []) == Some(0)
  {
  }

  lemma DataIs(nodes: seq<Node>, p: Pattern, n: nat)
    requires 0 < |nodes| && Walk(nodes, 0, p) == Some(n) && n < |nodes|
    ensures DataAt(nodes, 0, p) == nodes[n].data
  {
  }

  lemma WalkOneMore(nodes: seq<Node>, front: Pattern, parent: nat, step: Step)
    requires 0 < |nodes| && Walk(nodes, 0, front) == Some(parent)
    requires parent < |nodes| && Next(nodes[parent], step).Some?
    requires parent < Next(nodes[parent], step).value < |nodes|
    ensures Walk(nodes, 0, front + [step]) == Next(nodes[parent], step)
  {
    WalkSplit(nodes, 0, front, [step]);
    assert [step][1..] == [];
  }

  /** A walk that creates what is missing: where the pattern led somewhere before, nothing has changed,
      else the node it leads to now is empty. */
  ghost predicate Reached(before: seq<Node>, after: seq<Node>, pattern: Pattern, node: nat)
    requires before != [] && node < |after|
  {
    if Walk(before, 0, pattern).Some? then after == before else after[node] == EMPTY_NODE
  }

  lemma FirstReached(nodes: seq<Node>)
    requires nodes != []
    ensures Reached(nodes, nodes, [], 0)
  {
  }

  lemma ReachedStep(before: seq<Node>, now: seq<Node>, after: seq<Node>, front: Pattern, step: Step, node: nat, child: nat)
    requires before != [] && Ordered(before) && node < |now| && child < |after|
    requires Next(now[node], step).Some? ==> after == now && child == Next(now[node], step).value
    requires Next(now[node], step).None? ==> after[child] == EMPTY_NODE
    requires Reached(before, now, front, node) && 0 < |now| && Walk(now, 0, front) == Some(node)
    ensures Reached(before, after, front + [step], child)
  {
    if Walk(before, 0, front).Some? {
      WalkSplit(before, 0, front, [step]);
      assert [step][1..] == [];
    } else {
      if Walk(before, 0, front + [step]).Some? {
        WalkFront(before, 0, front, [step]);
      }
      assert Next(EMPTY_NODE, step).None?;
    }
  }

  /** Why `add_route` refuses. */
  function AddRouteError(nodes: seq<Node>, matching: Matching, verb: nat, pattern: string): Option<Error>
    requires nodes != []
  {
    var steps := TextSteps(JoinPattern("", pattern), matching);
    if METHOD_COUNT <= verb then Some(MethodOutOfRange)
    else if steps.None? then Some(InvalidEscape)
    else if DescendError(nodes, 0, steps.value, false).Some? then DescendError(nodes, 0, steps.value, false)
    else if verb in DataAt(nodes, 0, steps.value).targets then Some(AlreadyRegistered)
    else None
  }

  function PrefixError(nodes: seq<Node>, matching: Matching, prefix: string): Option<Error>
    requires nodes != []
  {
    var steps := TextSteps(prefix, matching);
    if steps.None? then Some(InvalidEscape) else DescendError(nodes, 0, steps.value, true)
  }

  /** `routes` are the targets stored in the trie, and each one's text stands for its pattern. */
  ghost predicate Holds(nodes: seq<Node>, matching: Matching, routes: Routes)
    requires nodes != []
  {
    && (forall verb, p :: (verb, p) in routes <==> verb in DataAt(nodes, 0, p).targets)
    && (forall verb, p :: (verb, p) in routes ==>
          && routes[(verb, p)] == DataAt(nodes, 0, p).targets[verb]
          && TextSteps(routes[(verb, p)].pattern, matching) == Some(p))
  }

  /** Registering one more route. */
  lemma HoldsAfterAdd(nodes: seq<Node>, after: seq<Node>, matching: Matching, routes: Routes,
                      verb: nat, steps: Pattern, target: Target)
    requires nodes != [] && after != [] && Holds(nodes, matching, routes)
    requires TextSteps(target.pattern, matching) == Some(steps)
    requires verb !in DataAt(nodes, 0, steps).targets
    requires forall q :: DataAt(after, 0, q) ==
               var was := DataAt(nodes, 0, q);
               if q == steps then was.(targets := was.targets[verb := target]) else was
    ensures (verb, steps) !in routes && Holds(after, matching, routes[(verb, steps) := target])
  {
    hide DataAt, TextSteps;
  }

  lemma HoldsSame(nodes: seq<Node>, after: seq<Node>, matching: Matching, routes: Routes)
    requires nodes != [] && after != [] && Holds(nodes, matching, routes)
    requires forall q :: DataAt(after, 0, q).targets == DataAt(nodes, 0, q).targets
    ensures Holds(after, matching, routes)
  {
    hide DataAt, TextSteps;
  }

  datatype Attachment =
    | OnRequest(hook: Hook)
    | PreHandler(hook: Hook)
    | OnResponse(hook: Hook)
    | NotFound(hook: Hook)
    | OnException(hook: Hook)

  function Attach(data: NodeData, a: Attachment): NodeData {
    match a
    case OnRequest(h) => data.(onRequest := data.onRequest + [h])
    case PreHandler(h) => data.(preHandler := data.preHandler + [h])
    case OnResponse(h) => data.(onResponse := data.onResponse + [h])
    case NotFound(h) => data.(notFound := Some(h))
    case OnException(h) => data.(exceptionHandler := Some(h))
  }

  // ---------------------------------------------------------------- matching against the route table

  datatype MatchResult = InvalidPath | NoRoute | Found(match_: Match)

  ghost predicate SomeRoute(routes: Routes, verb: nat, segments: seq<string>) {
    exists p :: (verb, p) in routes && Matches(p, segments)
  }

  /** The registered pattern that a linear scan with the priority rule picks. */
  ghost predicate BestRoute(routes: Routes, verb: nat, segments: seq<string>, p: Pattern) {
    && (verb, p) in routes && Matches(p, segments)
    && forall q :: (verb, q) in routes && Matches(q, segments) ==> q == p || Precedes(p, q)
  }

  /** The result of scanning the route table with the linear matcher: nothing when nothing matches, else
      the priority-least match, its parameters, and the hooks stored under its prefixes. */
  ghost predicate IsScanResult(nodes: seq<Node>, routes: Routes, verb: nat, segments: seq<string>, r: MatchResult)
    requires nodes != []
  {
    match r
    case InvalidPath => false
    case NoRoute => forall p :: (verb, p) in routes ==> !Matches(p, segments)
    case Found(m) =>
      exists p :: && BestRoute(routes, verb, segments, p)
                  && m.target == routes[(verb, p)]
                  && Linear(p, segments, []) == Some(m.params)
                  && Captured(p, segments, m.params)
                  && m.hooks == Collected(nodes, p, |p|)
  }

  lemma MatchIsScan(nodes: seq<Node>, matching: Matching, routes: Routes, verb: nat, segments: seq<string>)
    requires nodes != [] && Ordered(nodes) && Tidy(nodes) && Holds(nodes, matching, routes)
    ensures var found := MatchNode(nodes, 0, verb, segments, [], NO_HOOKS);
            IsScanResult(nodes, routes, verb, segments, if found.Some? then Found(found.value) else NoRoute)
    ensures MatchNode(nodes, 0, verb, segments, [], NO_HOOKS).Some? <==> SomeRoute(routes, verb, segments)
  {
    hide DataAt, MatchNode, Matches, Linear, Precedes, Along, TextSteps, Captured;
    var p := MatchNodeIsLinearScan(nodes, 0, verb, segments, [], NO_HOOKS);
    var found := MatchNode(nodes, 0, verb, segments, [], NO_HOOKS);
    assert forall q: Pattern :: IsRoute(nodes, 0, verb, q) <==> (verb, q) in routes;
    if MatchNode(nodes, 0, verb, segments, [], NO_HOOKS).Some? {
      assert p[..|p|] == p;
      AlongIsCollected(nodes, p, |p|);
      LinearIsCaptured(p, segments, found.value.params);
      assert BestRoute(routes, verb, segments, p);
    }
  }

  // ---------------------------------------------------------------- mounted routes

  /** Nothing under the prefix is in the way of the mounted router. */
  ghost predicate Mountable(nodes: seq<Node>, mounted: seq<Node>, steps: Pattern)
    requires nodes != [] && mounted != []
  {
    Walk(nodes, 0, steps).Some? ==> CompatibleEverywhere(nodes, mounted, Walk(nodes, 0, steps).value, 0)
  }

  /** Creating the prefix's node does not change what may be mounted there. */
  lemma MountableAfter(before: seq<Node>, after: seq<Node>, mounted: seq<Node>, steps: Pattern, destination: nat)
    requires before != [] && mounted != [] && destination < |after|
    requires Walk(after, 0, steps) == Some(destination) && Reached(before, after, steps, destination)
    ensures Mountable(before, mounted, steps) <==> CompatibleEverywhere(after, mounted, destination, 0)
  {
    hide CompatibleEverywhere;
    if Walk(before, 0, steps).None? {
      EmptyCompatible(after, mounted, destination, 0);
    }
  }

  /** The clash validation ends with at the prefix's node. */
  ghost predicate ClashAt(nodes: seq<Node>, mounted: seq<Node>, steps: Pattern, clash: Clash)
    requires nodes != [] && mounted != []
  {
    && Ordered(nodes) && Ordered(mounted) && Walk(nodes, 0, steps).Some?
    && Reports(nodes, mounted, Walk(nodes, 0, steps).value, 0, clash)
  }

  lemma ClashBefore(before: seq<Node>, after: seq<Node>, mounted: seq<Node>, steps: Pattern, destination: nat, clash: Clash)
    requires before != [] && mounted != [] && destination < |after| && Ordered(after) && Ordered(mounted)
    requires Walk(after, 0, steps) == Some(destination) && Reached(before, after, steps, destination)
    requires !CompatibleEverywhere(after, mounted, destination, 0) && Reports(after, mounted, destination, 0, clash)
    ensures ClashAt(before, mounted, steps, clash)
  {
    hide CompatibleEverywhere, Reports, Walk;
    if Walk(before, 0, steps).None? {
      EmptyCompatible(after, mounted, destination, 0);
      assert false;
    }
  }

  /** `prefix_route_patterns` does nothing for an empty normalized prefix. */
  function PrefixTarget(t: Target, prefix: string): Target {
    if NormalizePrefix(prefix) == "" then t else t.(pattern := JoinPattern(prefix, t.pattern))
  }

  function PrefixData(data: NodeData, prefix: string): (r: NodeData)
    ensures r.targets.Keys == data.targets.Keys
  {
    data.(targets := map verb | verb in data.targets :: PrefixTarget(data.targets[verb], prefix))
  }

  function PrefixNodes(nodes: seq<Node>, prefix: string): (r: seq<Node>)
    ensures |r| == |nodes|
    ensures forall i :: 0 <= i < |nodes| ==> r[i] == nodes[i].(data := PrefixData(nodes[i].data, prefix))
  {
    seq(|nodes|, i requires 0 <= i < |nodes| => nodes[i].(data := PrefixData(nodes[i].data, prefix)))
  }

  function ShiftKeys(keys: set<(nat, Pattern)>, p: Pattern): set<(nat, Pattern)> {
    set key | key in keys :: (key.0, p + key.1)
  }

  /** The mounted routes as they appear under the prefix. */
  function MountedRoutes(routes: Routes, p: Pattern, prefix: string): (r: Routes)
    ensures r.Keys == ShiftKeys(routes.Keys, p)
  {
    assert forall key :: key in ShiftKeys(routes.Keys, p) ==> key.1[|p|..] == key.1[|p|..];
    map key | key in ShiftKeys(routes.Keys, p) ::
      (assert (key.0, key.1[|p|..]) in routes by { ShiftedKey(routes.Keys, p, key); }
       PrefixTarget(routes[(key.0, key.1[|p|..])], prefix))
  }

  lemma ShiftedKey(keys: set<(nat, Pattern)>, p: Pattern, key: (nat, Pattern))
    ensures key in ShiftKeys(keys, p) <==> p <= key.1 && (key.0, key.1[|p|..]) in keys
  {
    if key in ShiftKeys(keys, p) {
      var k :| k in keys && key == (k.0, p + k.1);
      assert key.1[|p|..] == k.1;
      assert (key.0, key.1[|p|..]) == k;
    }
    if p <= key.1 && (key.0, key.1[|p|..]) in keys {
      assert p + key.1[|p|..] == key.1;
      assert (key.0, p + (key.0, key.1[|p|..]).1) == key;
    }
  }

  lemma {:induction false} ShiftKeysSize(keys: set<(nat, Pattern)>, p: Pattern)
    ensures |ShiftKeys(keys, p)| == |keys|
    decreases keys
  {
    if keys != {} {
      var key :| key in keys;
      var rest := keys - {key};
      ShiftKeysSize(rest, p);
      var shifted := (key.0, p + key.1);
      assert shifted.1[|p|..] == key.1;
      ShiftedKey(rest, p, shifted);
      assert ShiftKeys(keys, p) == ShiftKeys(rest, p) + {shifted};
    }
  }

  lemma PrefixWalk(nodes: seq<Node>, prefix: string, i: nat, q: Pattern)
    requires i < |nodes|
    ensures Walk(PrefixNodes(nodes, prefix), i, q) == Walk(nodes, i, q)
    decreases |nodes| - i
  {
    if q != [] {
      var after := PrefixNodes(nodes, prefix);
      assert Next(after[i], q[0]) == Next(nodes[i], q[0]);
      var next := Next(nodes[i], q[0]);
      if next.Some? && i < next.value < |nodes| {
        PrefixWalk(nodes, prefix, next.value, q[1..]);
      }
    }
  }

  lemma PrefixLabelled(nodes: seq<Node>, labels: seq<Pattern>, prefix: string)
    requires Labelled(nodes, labels)
    ensures Labelled(PrefixNodes(nodes, prefix), labels)
  {
    var after := PrefixNodes(nodes, prefix);
    assert forall i, step :: 0 <= i < |nodes| ==> Next(after[i], step) == Next(nodes[i], step);
  }

  lemma PrefixCompatible(nodes: seq<Node>, mounted: seq<Node>, prefix: string, d: nat, s: nat)
    requires d < |nodes| && s < |mounted| && CompatibleEverywhere(nodes, mounted, d, s)
    ensures CompatibleEverywhere(nodes, PrefixNodes(mounted, prefix), d, s)
  {
    var after := PrefixNodes(mounted, prefix);
    forall q | Walk(nodes, d, q).Some? && Walk(after, s, q).Some?
      ensures Compatible(nodes[Walk(nodes, d, q).value], after[Walk(after, s, q).value])
    {
      PrefixWalk(mounted, prefix, s, q);
      assert Compatible(nodes[Walk(nodes, d, q).value], mounted[Walk(mounted, s, q).value]);
    }
  }

  // ---------------------------------------------------------------- merging, step by step

  /** What is left to do for one child of the source node. */
  ghost predicate Pending(nodes: seq<Node>, m: seq<Node>, d: nat, s: nat, step: Step)
    requires Ordered(nodes) && Ordered(m) && d < |nodes| && s < |m|
  {
    Next(m[s], step).Some? ==>
      if Next(nodes[d], step).Some?
      then CanMerge(nodes, m, Next(nodes[d], step).value, Next(m[s], step).value)
      else Free(nodes[d], step)
  }

  lemma CanMergePending(nodes: seq<Node>, m: seq<Node>, d: nat, s: nat, step: Step)
    requires Ordered(nodes) && Ordered(m) && d < |nodes| && s < |m| && CanMerge(nodes, m, d, s)
    ensures Pending(nodes, m, d, s, step)
  {
    assert Compatible(nodes[d], m[s]);
  }

  lemma MergeIntoEmpty(nodes: seq<Node>, m: seq<Node>, d: nat, s: nat)
    requires Ordered(nodes) && Ordered(m) && d < |nodes| && s < |m| && nodes[d] == EMPTY_NODE
    ensures CanMerge(nodes, m, d, s)
  {
    assert forall step :: Next(nodes[d], step).None?;
  }

  /** Merging below another child does not disturb what is pending for this one. */
  lemma {:induction false} CanMergeSame(
      nodes: seq<Node>, labels: seq<Pattern>, after: seq<Node>, labelsAfter: seq<Pattern>,
      m: seq<Node>, d: nat, p: Pattern, i: nat, s: nat)
    requires Labelled(nodes, labels) && Labelled(after, labelsAfter) && labels <= labelsAfter
    requires Ordered(nodes) && Ordered(after) && Ordered(m) && d < i < |nodes| && s < |m|
    requires forall k :: 0 <= k < |nodes| && k != d && !(p <= labels[k]) ==> after[k] == nodes[k]
    requires |p| <= |labels[i]| && !(p <= labels[i])
    requires CanMerge(nodes, m, i, s)
    ensures CanMerge(after, m, i, s)
    decreases |m| - s
  {
    hide Compatible;
    assert after[i] == nodes[i];
    forall step | Next(nodes[i], step).Some? && Next(m[s], step).Some?
      ensures CanMerge(after, m, Next(nodes[i], step).value, Next(m[s], step).value)
    {
      var j := Next(nodes[i], step).value;
      PrefixGrows(p, labels[i], [step]);
      CanMergeSame(nodes, labels, after, labelsAfter, m, d, p, j, Next(m[s], step).value);
    }
  }

  ghost predicate ChildMerged(before: seq<Node>, after: seq<Node>, m: seq<Node>, d: nat, s: nat, step: Step)
    requires d < |before| && d < |after| && s < |m|
  {
    forall q :: DataAt(after, d, [step] + q) == MergeData(DataAt(before, d, [step] + q), DataAt(m, s, [step] + q))
  }

  ghost predicate ChildSame(before: seq<Node>, after: seq<Node>, d: nat, step: Step)
    requires d < |before| && d < |after|
  {
    forall q :: DataAt(after, d, [step] + q) == DataAt(before, d, [step] + q)
  }

  ghost predicate Merged(before: seq<Node>, after: seq<Node>, m: seq<Node>, d: nat, s: nat)
    requires d < |before| && d < |after| && s < |m|
  {
    forall q :: DataAt(after, d, q) == MergeData(DataAt(before, d, q), DataAt(m, s, q))
  }

  /** One child of node `d` has been merged: only that child's subtree and the link to it changed. */
  ghost predicate OneChild(before: seq<Node>, labels: seq<Pattern>, after: seq<Node>, labelsAfter: seq<Pattern>,
                           d: nat, step: Step) {
    && Labelled(before, labels) && Labelled(after, labelsAfter) && labels <= labelsAfter && d < |before|
    && (forall k :: 0 <= k < |before| && k != d && !(labels[d] + [step] <= labels[k]) ==> after[k] == before[k])
    && (after[d] == before[d] || (Free(before[d], step) && after[d] == WithChild(before[d], step, |before|)))
  }

  lemma OneChildSiblings(before: seq<Node>, labels: seq<Pattern>, after: seq<Node>, labelsAfter: seq<Pattern>,
                         m: seq<Node>, d: nat, s: nat, step: Step, other: Step)
    requires OneChild(before, labels, after, labelsAfter, d, step) && other != step
    requires Ordered(before) && Ordered(after) && Ordered(m) && s < |m|
    requires Next(m[s], step).Some?
    ensures ChildSame(before, after, d, other)
    ensures Pending(before, m, d, s, other) ==> Pending(after, m, d, s, other)
    ensures after[d].data == before[d].data
  {
    hide CanMerge;
    if Free(before[d], step) {
      WithChildNext(before[d], step, |before|);
    }
    forall q
      ensures DataAt(after, d, [other] + q) == DataAt(before, d, [other] + q)
    {
      SiblingsSame(before, labels, after, labelsAfter, d, step, other, q);
    }
    if Pending(before, m, d, s, other) && Next(m[s], other).Some? && Next(before[d], other).Some? {
      var j := Next(before[d], other).value;
      assert (labels[d] + [step])[|labels[d]|] == step && labels[j][|labels[d]|] == other;
      CanMergeSame(before, labels, after, labelsAfter, m, d, labels[d] + [step], j, Next(m[s], other).value);
    }
  }

  /** Progress of the merge at node `d`: the children in `done` are merged, the others untouched. */
  ghost predicate Progress(before: seq<Node>, labels: seq<Pattern>, now: seq<Node>, labelsNow: seq<Pattern>,
                           m: seq<Node>, d: nat, s: nat, done: set<Step>) {
    && Labelled(before, labels) && Labelled(now, labelsNow) && labels <= labelsNow
    && Ordered(before) && Ordered(now) && Ordered(m) && d < |before| && s < |m|
    && (forall k :: 0 <= k < |before| && !(labels[d] <= labels[k]) ==> now[k] == before[k])
    && now[d].data == before[d].data
    && (forall step :: step in done ==> ChildMerged(before, now, m, d, s, step))
    && (forall step :: step !in done ==> ChildSame(before, now, d, step) && Pending(now, m, d, s, step))
  }

  lemma ProgressStep(before: seq<Node>, labels: seq<Pattern>, now: seq<Node>, labelsNow: seq<Pattern>,
                     after: seq<Node>, labelsAfter: seq<Pattern>, m: seq<Node>, d: nat, s: nat,
                     done: set<Step>, step: Step)
    requires Progress(before, labels, now, labelsNow, m, d, s, done)
    requires step !in done && Next(m[s], step).Some?
    requires OneChild(now, labelsNow, after, labelsAfter, d, step) && Ordered(after)
    requires ChildMerged(now, after, m, d, s, step)
    ensures Progress(before, labels, after, labelsAfter, m, d, s, done + {step})
  {
    hide CanMerge, DataAt, MergeData, Next, Free, WithChild;
    forall other | other != step
      ensures ChildSame(now, after, d, other)
      ensures Pending(now, m, d, s, other) ==> Pending(after, m, d, s, other)
      ensures after[d].data == now[d].data
    {
      OneChildSiblings(now, labelsNow, after, labelsAfter, m, d, s, step, other);
    }
    DataKept(now, labelsNow, after, labelsAfter, d, step);
    forall other | other in done + {step}
      ensures ChildMerged(before, after, m, d, s, other)
    {
      if other == step {
        assert ChildSame(before, now, d, step);
      } else {
        assert ChildMerged(before, now, m, d, s, other) && ChildSame(now, after, d, other);
      }
    }
    forall other | other !in done + {step}
      ensures ChildSame(before, after, d, other) && Pending(after, m, d, s, other)
    {
      assert ChildSame(before, now, d, other) && ChildSame(now, after, d, other) && Pending(now, m, d, s, other);
    }
    forall k | 0 <= k < |before| && !(labels[d] <= labels[k])
      ensures after[k] == before[k]
    {
      assert labels[d] <= labels[d] + [step];
      PrefixTransitive(labels[d], labels[d] + [step], labels[k]);
    }
  }

  lemma PrefixTransitive(a: Pattern, b: Pattern, c: Pattern)
    requires a <= b
    ensures b <= c ==> a <= c
  {
  }

  lemma DataKept(now: seq<Node>, labelsNow: seq<Pattern>, after: seq<Node>, labelsAfter: seq<Pattern>,
                 d: nat, step: Step)
    requires OneChild(now, labelsNow, after, labelsAfter, d, step)
    ensures after[d].data == now[d].data
  {
  }

  /** When every child of the source node is done, the whole subtree is merged. */
  lemma ProgressDone(before: seq<Node>, labels: seq<Pattern>, stored: seq<Node>, after: seq<Node>,
                     labelsAfter: seq<Pattern>, m: seq<Node>, d: nat, s: nat, done: set<Step>)
    requires Labelled(before, labels) && d < |before| && s < |m|
    requires stored == before[d := before[d].(data := MergeData(before[d].data, m[s].data))]
    requires Progress(stored, labels, after, labelsAfter, m, d, s, done)
    requires forall step :: Next(m[s], step).Some? ==> step in done
    ensures Merged(before, after, m, d, s) && |before| <= |after|
    ensures ChangedBelow(before, labels, after, labelsAfter, labels[d])
  {
    hide MergeData, CanMerge;
    forall q
      ensures DataAt(after, d, q) == MergeData(DataAt(before, d, q), DataAt(m, s, q))
    {
      StoreWalk(before, d, stored[d].data, d, q);
      if q == [] {
        assert Walk(after, d, []) == Some(d) && Walk(before, d, []) == Some(d) && Walk(m, s, []) == Some(s);
      } else {
        assert q == [q[0]] + q[1..];
        BelowStored(before, labels, d, stored[d].data, q);
        if q[0] in done {
          assert ChildMerged(stored, after, m, d, s, q[0]);
        } else {
          assert ChildSame(stored, after, d, q[0]);
          DataBelow(m, s, q[0], q[1..]);
          MergeEmpty(DataAt(before, d, q));
        }
      }
    }
  }

  lemma BelowStored(nodes: seq<Node>, labels: seq<Pattern>, d: nat, data: NodeData, q: Pattern)
    requires Labelled(nodes, labels) && d < |nodes| && q != []
    ensures DataAt(nodes[d := nodes[d].(data := data)], d, q) == DataAt(nodes, d, q)
  {
    StoreWalk(nodes, d, data, d, q);
    if Walk(nodes, d, q).Some? {
      WalkLabel(nodes, labels, d, q);
    }
  }

  /** Edits at smaller indices are invisible from above. */
  lemma {:induction false} SameAbove(nodes: seq<Node>, after: seq<Node>, d: nat, j: nat, q: Pattern)
    requires |nodes| == |after| && d < j < |nodes|
    requires forall k :: d < k < |nodes| ==> after[k] == nodes[k]
    ensures DataAt(after, j, q) == DataAt(nodes, j, q)
    decreases |nodes| - j
  {
    if q != [] && Next(nodes[j], q[0]).Some? {
      var k := Next(nodes[j], q[0]).value;
      if j < k < |nodes| {
        SameAbove(nodes, after, d, k, q[1..]);
      }
    }
  }

  lemma {:induction false} WalkKept(
      nodes: seq<Node>, labels: seq<Pattern>, after: seq<Node>, labelsAfter: seq<Pattern>,
      p: Pattern, i: nat, q: Pattern)
    requires ChangedBelow(nodes, labels, after, labelsAfter, p)
    requires i < |nodes| && Walk(nodes, i, q).Some? && labels[i] + q == p
    ensures Walk(after, i, q) == Walk(nodes, i, q)
    decreases |nodes| - i
  {
    if q != [] {
      assert !(p <= labels[i]);
      assert after[i] == nodes[i];
      var j := Next(nodes[i], q[0]).value;
      assert q == [q[0]] + q[1..];
      assert labels[j] + q[1..] == p;
      WalkKept(nodes, labels, after, labelsAfter, p, j, q[1..]);
    }
  }

  lemma ProgressStart(before: seq<Node>, labels: seq<Pattern>, m: seq<Node>, d: nat, s: nat)
    requires Labelled(before, labels) && Ordered(before) && Ordered(m) && d < |before| && s < |m|
    requires CanMerge(before, m, d, s)
    ensures var stored := before[d := before[d].(data := MergeData(before[d].data, m[s].data))];
            Progress(stored, labels, stored, labels, m, d, s, {})
  {
    var stored := before[d := before[d].(data := MergeData(before[d].data, m[s].data))];
    assert forall i, step :: 0 <= i < |before| ==> Next(stored[i], step) == Next(before[i], step);
    forall step
      ensures Pending(stored, m, d, s, step)
    {
      CanMergePending(before, m, d, s, step);
      if Next(m[s], step).Some? && Next(before[d], step).Some? {
        CanMergeStored(before, m, d, stored[d].data, Next(before[d], step).value, Next(m[s], step).value);
      }
    }
  }

  lemma {:induction false} CanMergeStored(nodes: seq<Node>, m: seq<Node>, d: nat, data: NodeData, i: nat, s: nat)
    requires d < i < |nodes|
    requires Ordered(nodes) && Ordered(nodes[d := nodes[d].(data := data)]) && Ordered(m)
    requires s < |m| && CanMerge(nodes, m, i, s)
    ensures CanMerge(nodes[d := nodes[d].(data := data)], m, i, s)
    decreases |m| - s
  {
    hide Compatible;
    forall step | Next(nodes[i], step).Some? && Next(m[s], step).Some?
      ensures CanMerge(nodes[d := nodes[d].(data := data)], m, Next(nodes[i], step).value, Next(m[s], step).value)
    {
      CanMergeStored(nodes, m, d, data, Next(nodes[i], step).value, Next(m[s], step).value);
    }
  }

  /** The child existed: its subtree was merged in place. */
  lemma MergedInto(before: seq<Node>, labels: seq<Pattern>, after: seq<Node>, labelsAfter: seq<Pattern>,
                   m: seq<Node>, d: nat, s: nat, step: Step)
    requires Labelled(before, labels) && d < |before| && s < |m| && Ordered(m)
    requires Next(before[d], step).Some? && Next(m[s], step).Some?
    requires ChangedBelow(before, labels, after, labelsAfter, labels[d] + [step])
    requires Next(before[d], step).value < |before| <= |after|
    requires Merged(before, after, m, Next(before[d], step).value, Next(m[s], step).value)
    ensures OneChild(before, labels, after, labelsAfter, d, step)
    ensures ChildMerged(before, after, m, d, s, step)
  {
    hide MergeData, Walk;
    assert after[d] == before[d];
    forall q
      ensures DataAt(after, d, [step] + q) == MergeData(DataAt(before, d, [step] + q), DataAt(m, s, [step] + q))
    {
      DataBelow(before, d, step, q);
      DataBelow(after, d, step, q);
      DataBelow(m, s, step, q);
    }
  }

  /** The child was missing: the source subtree was copied to a new node, which was then linked. */
  lemma MovedInto(before: seq<Node>, labels: seq<Pattern>, unlinked: seq<Node>, after: seq<Node>,
                  labelsAfter: seq<Pattern>, m: seq<Node>, d: nat, s: nat, step: Step)
    requires Labelled(before, labels) && d < |before| && s < |m| && Ordered(m)
    requires Free(before[d], step) && Next(m[s], step).Some?
    requires ChangedBelow(before + [EMPTY_NODE], labels + [labels[d] + [step]], unlinked, labelsAfter, labels[d] + [step])
    requires |before| < |unlinked| && after == unlinked[d := WithChild(unlinked[d], step, |before|)]
    requires Merged(before + [EMPTY_NODE], unlinked, m, |before|, Next(m[s], step).value)
    ensures OneChild(before, labels, after, labelsAfter, d, step) && Ordered(after)
    ensures ChildMerged(before, after, m, d, s, step)
  {
    hide MergeData, Walk;
    var extended, extendedLabels := before + [EMPTY_NODE], labels + [labels[d] + [step]];
    assert extended[d] == before[d] && extendedLabels[d] == labels[d];
    assert unlinked[d] == before[d];
    WithChildNext(before[d], step, |before|);
    assert labelsAfter[|before|] == extendedLabels[|before|];
    LinkedLabels(unlinked, labelsAfter, after, d, step, |before|);
    LabelledIsTidy(after, labelsAfter);
    forall k | 0 <= k < |before| && k != d && !(labels[d] + [step] <= labels[k])
      ensures after[k] == before[k]
    {
      assert extendedLabels[k] == labels[k] && extended[k] == before[k];
    }
    forall q
      ensures DataAt(after, d, [step] + q) == MergeData(DataAt(before, d, [step] + q), DataAt(m, s, [step] + q))
    {
      DataBelow(before, d, step, q);
      DataBelow(after, d, step, q);
      DataBelow(m, s, step, q);
      SameAbove(unlinked, after, d, |before|, q);
      EmptyNodeData(extended, |before|, q);
    }
  }

  lemma EmptyNodeData(nodes: seq<Node>, i: nat, q: Pattern)
    requires i < |nodes| && nodes[i] == EMPTY_NODE
    ensures DataAt(nodes, i, q) == EMPTY_DATA
  {
  }

  lemma LinkedLabels(unlinked: seq<Node>, labels: seq<Pattern>, after: seq<Node>, d: nat, step: Step, child: nat)
    requires Labelled(unlinked, labels) && d < child < |unlinked| && Free(unlinked[d], step)
    requires after == unlinked[d := WithChild(unlinked[d], step, child)]
    requires labels[child] == labels[d] + [step]
    ensures Labelled(after, labels)
  {
    WithChildNext(unlinked[d], step, child);
  }

  lemma AppendUnlinked(nodes: seq<Node>, labels: seq<Pattern>, p: Pattern)
    requires Labelled(nodes, labels) && WellFormed(p)
    ensures Labelled(nodes + [EMPTY_NODE], labels + [p]) && Ordered(nodes + [EMPTY_NODE])
  {
    var after, labelsAfter := nodes + [EMPTY_NODE], labels + [p];
    assert forall step :: Next(EMPTY_NODE, step).None?;
    assert forall i, step :: 0 <= i < |after| ==>
        Next(after[i], step) == if i < |nodes| then Next(nodes[i], step) else None;
  }

  lemma LongerWellFormed(p: Pattern, q: Pattern)
    requires NoWild(p) && WellFormed(p) && WellFormed(q)
    ensures WellFormed(p + q)
  {
  }

  lemma LabelWellFormed(nodes: seq<Node>, labels: seq<Pattern>, i: nat)
    requires Labelled(nodes, labels) && i < |nodes|
    ensures WellFormed(labels[i])
  {
  }

  lemma AllChildrenDone(node: Node, done: set<Step>)
    requires forall text :: text in node.statics ==> Static(text) in done
    requires node.parameter.Some? ==> Param(node.parameter.value.name) in done
    requires node.wildcard.Some? ==> Wild(node.wildcard.value.name) in done
    ensures forall step :: Next(node, step).Some? ==> step in done
  {
  }

  // ---------------------------------------------------------------- one turn of the validation

  /** Any clash at the node or below it is in the way. */
  lemma ClashBlocks(nodes: seq<Node>, mounted: seq<Node>, d: nat, s: nat)
    requires Ordered(nodes) && Ordered(mounted) && d < |nodes| && s < |mounted|
    ensures var a, b := nodes[d], mounted[s];
            CanMerge(nodes, mounted, d, s) <==>
              && StoredClash(a, b).None? && !NamesDiffer(a.parameter, b.parameter) && !NamesDiffer(a.wildcard, b.wildcard)
              && forall step :: !ChildClash(nodes, mounted, d, s, step)
  {
    hide Compatible, StoredClash;
    CompatibleClashes(nodes[d], mounted[s]);
    if CanMerge(nodes, mounted, d, s) {
      forall step ensures !ChildClash(nodes, mounted, d, s, step) {
        assert Next(nodes[d], step).Some? && Next(mounted[s], step).Some? ==>
                 CanMerge(nodes, mounted, Next(nodes[d], step).value, Next(mounted[s], step).value);
      }
    }
    if forall step :: !ChildClash(nodes, mounted, d, s, step) {
      forall step | Next(nodes[d], step).Some? && Next(mounted[s], step).Some?
        ensures CanMerge(nodes, mounted, Next(nodes[d], step).value, Next(mounted[s], step).value)
      {
        assert !ChildClash(nodes, mounted, d, s, step);
      }
    }
  }

  lemma StoredFirst(nodes: seq<Node>, mounted: seq<Node>, d: nat, s: nat)
    requires Ordered(nodes) && Ordered(mounted) && d < |nodes| && s < |mounted|
    ensures var a, b := nodes[d], mounted[s];
            && (StoredClash(a, b).Some? ==> Reports(nodes, mounted, d, s, StoredClash(a, b).value))
            && StoredClash(a, b) == if !(a.data.targets.Keys !! b.data.targets.Keys) then Some(RouteClash)
                                    else if a.data.notFound.Some? && b.data.notFound.Some? then Some(NotFoundClash)
                                    else if a.data.exceptionHandler.Some? && b.data.exceptionHandler.Some? then
                                      Some(ExceptionClash)
                                    else None
  {
  }

  lemma StaticReported(nodes: seq<Node>, mounted: seq<Node>, d: nat, s: nat, text: string, clash: Clash)
    requires Ordered(nodes) && Ordered(mounted) && d < |nodes| && s < |mounted|
    requires StoredClash(nodes[d], mounted[s]).None? && ChildClash(nodes, mounted, d, s, Static(text))
    requires Reports(nodes, mounted, Next(nodes[d], Static(text)).value, Next(mounted[s], Static(text)).value, clash)
    ensures Reports(nodes, mounted, d, s, clash)
  {
    hide CanMerge, StoredClash;
  }

  ghost predicate StaticsMerge(nodes: seq<Node>, mounted: seq<Node>, d: nat, s: nat)
    requires Ordered(nodes) && Ordered(mounted) && d < |nodes| && s < |mounted|
  {
    forall text :: !ChildClash(nodes, mounted, d, s, Static(text))
  }

  lemma NoStaticClash(nodes: seq<Node>, mounted: seq<Node>, d: nat, s: nat)
    requires Ordered(nodes) && Ordered(mounted) && d < |nodes| && s < |mounted|
    requires forall text :: text in mounted[s].statics && text in nodes[d].statics ==>
               !ChildClash(nodes, mounted, d, s, Static(text))
    ensures StaticsMerge(nodes, mounted, d, s)
  {
    hide CanMerge;
  }

  lemma NamesReported(nodes: seq<Node>, mounted: seq<Node>, d: nat, s: nat)
    requires Ordered(nodes) && Ordered(mounted) && d < |nodes| && s < |mounted|
    requires StoredClash(nodes[d], mounted[s]).None? && StaticsMerge(nodes, mounted, d, s)
    ensures var a, b := nodes[d], mounted[s];
            && (NamesDiffer(a.parameter, b.parameter) ==> Reports(nodes, mounted, d, s, ParameterClash))
            && (!NamesDiffer(a.parameter, b.parameter) && NamesDiffer(a.wildcard, b.wildcard)
                && (b.parameter.Some? ==> !ChildClash(nodes, mounted, d, s, Param(b.parameter.value.name))) ==>
                  Reports(nodes, mounted, d, s, WildcardClash))
  {
    hide CanMerge, StoredClash;
  }

  lemma NamedReported(nodes: seq<Node>, mounted: seq<Node>, d: nat, s: nat, step: Step, clash: Clash)
    requires Ordered(nodes) && Ordered(mounted) && d < |nodes| && s < |mounted|
    requires StoredClash(nodes[d], mounted[s]).None? && StaticsMerge(nodes, mounted, d, s)
    requires !NamesDiffer(nodes[d].parameter, mounted[s].parameter) && ChildClash(nodes, mounted, d, s, step)
    requires step.Param? || (step.Wild? && !NamesDiffer(nodes[d].wildcard, mounted[s].wildcard)
               && (mounted[s].parameter.Some? ==> !ChildClash(nodes, mounted, d, s, Param(mounted[s].parameter.value.name))))
    requires Reports(nodes, mounted, Next(nodes[d], step).value, Next(mounted[s], step).value, clash)
    ensures Reports(nodes, mounted, d, s, clash)
  {
    hide CanMerge, StoredClash;
  }

  /** With nothing to report, the two subtries go together. */
  lemma NothingReported(nodes: seq<Node>, mounted: seq<Node>, d: nat, s: nat)
    requires Ordered(nodes) && Ordered(mounted) && d < |nodes| && s < |mounted|
    requires StoredClash(nodes[d], mounted[s]).None? && StaticsMerge(nodes, mounted, d, s)
    requires !NamesDiffer(nodes[d].parameter, mounted[s].parameter)
    requires !NamesDiffer(nodes[d].wildcard, mounted[s].wildcard)
    requires mounted[s].parameter.Some? ==> !ChildClash(nodes, mounted, d, s, Param(mounted[s].parameter.value.name))
    requires mounted[s].wildcard.Some? ==> !ChildClash(nodes, mounted, d, s, Wild(mounted[s].wildcard.value.name))
    ensures CanMerge(nodes, mounted, d, s)
  {
    hide CanMerge, StoredClash;
    ClashBlocks(nodes, mounted, d, s);
    forall step ensures !ChildClash(nodes, mounted, d, s, step) {
      if step.Static? {
        assert !ChildClash(nodes, mounted, d, s, Static(step.text));
      }
    }
  }

  // ---------------------------------------------------------------- what a mount does to the routes

  lemma PrefixDataAt(nodes: seq<Node>, prefix: string, i: nat, q: Pattern)
    requires i < |nodes|
    ensures DataAt(PrefixNodes(nodes, prefix), i, q) == PrefixData(DataAt(nodes, i, q), prefix)
  {
    PrefixWalk(nodes, prefix, i, q);
    assert PrefixData(EMPTY_DATA, prefix).targets == map[];
  }

  /** The merge at the prefix's node, seen from the root. */
  lemma MountShows(before: seq<Node>, labels: seq<Pattern>, after: seq<Node>, labelsAfter: seq<Pattern>,
                   mounted: seq<Node>, prefix: string, destination: nat, steps: Pattern)
    requires ChangedBelow(before, labels, after, labelsAfter, steps)
    requires destination < |before| <= |after| && Walk(before, 0, steps) == Some(destination) && 0 < |mounted|
    requires Merged(before, after, PrefixNodes(mounted, prefix), destination, 0)
    ensures forall q :: DataAt(after, 0, steps + q) ==
              MergeData(DataAt(before, 0, steps + q), PrefixData(DataAt(mounted, 0, q), prefix))
    ensures forall q :: !(steps <= q) ==> DataAt(after, 0, q) == DataAt(before, 0, q)
  {
    hide MergeData, PrefixData, DataAt, Walk, Merged;
    forall q
      ensures DataAt(after, 0, steps + q) ==
              MergeData(DataAt(before, 0, steps + q), PrefixData(DataAt(mounted, 0, q), prefix))
    {
      MountShowsAt(before, labels, after, labelsAfter, mounted, prefix, destination, steps, q);
    }
    forall q | !(steps <= q) ensures DataAt(after, 0, q) == DataAt(before, 0, q) {
      assert [] + q == q;
      OutsideSame(before, labels, after, labelsAfter, steps, 0, q);
    }
  }

  lemma MountShowsAt(before: seq<Node>, labels: seq<Pattern>, after: seq<Node>, labelsAfter: seq<Pattern>,
                     mounted: seq<Node>, prefix: string, destination: nat, steps: Pattern, q: Pattern)
    requires ChangedBelow(before, labels, after, labelsAfter, steps)
    requires destination < |before| <= |after| && Walk(before, 0, steps) == Some(destination) && 0 < |mounted|
    requires Merged(before, after, PrefixNodes(mounted, prefix), destination, 0)
    ensures DataAt(after, 0, steps + q) ==
            MergeData(DataAt(before, 0, steps + q), PrefixData(DataAt(mounted, 0, q), prefix))
  {
    hide MergeData, PrefixData;
    assert [] + steps == steps;
    WalkKept(before, labels, after, labelsAfter, steps, 0, steps);
    WalkSplit(before, 0, steps, q);
    WalkSplit(after, 0, steps, q);
    PrefixDataAt(mounted, prefix, 0, q);
  }

  lemma TargetsDisjoint(before: seq<Node>, mounted: seq<Node>, destination: nat, q: Pattern)
    requires destination < |before| && mounted != [] && CompatibleEverywhere(before, mounted, destination, 0)
    ensures DataAt(before, destination, q).targets.Keys !! DataAt(mounted, 0, q).targets.Keys
  {
    if Walk(before, destination, q).Some? && Walk(mounted, 0, q).Some? {
      assert Compatible(before[Walk(before, destination, q).value], mounted[Walk(mounted, 0, q).value]);
    }
  }

  /** Compatible tries register no method twice under the same pattern. */
  lemma MountDisjoint(before: seq<Node>, mounted: seq<Node>, matching: Matching, routes: Routes, mountedRoutes: Routes,
                      steps: Pattern, destination: nat)
    requires before != [] && mounted != [] && destination < |before|
    requires Holds(before, matching, routes) && Holds(mounted, matching, mountedRoutes)
    requires Walk(before, 0, steps) == Some(destination)
    requires CompatibleEverywhere(before, mounted, destination, 0)
    ensures routes.Keys !! ShiftKeys(mountedRoutes.Keys, steps)
  {
    hide TextSteps, ShiftKeys;
    forall key | key in ShiftKeys(mountedRoutes.Keys, steps)
      ensures key !in routes
    {
      ShiftedKey(mountedRoutes.Keys, steps, key);
      var q := key.1[|steps|..];
      assert steps + q == key.1;
      WalkSplit(before, 0, steps, q);
      assert key.0 in DataAt(mounted, 0, q).targets;
      assert (key.0, key.1) == key;
      TargetsDisjoint(before, mounted, destination, q);
    }
  }

  lemma MountedText(prefix: string, steps: Pattern, matching: Matching, t: Target, q: Pattern)
    requires TextSteps(prefix, matching) == Some(steps) && TextSteps(t.pattern, matching) == Some(q)
    ensures TextSteps(PrefixTarget(t, prefix).pattern, matching) == Some(steps + q)
  {
    hide TextSteps, JoinPattern, NormalizePrefix;
    JoinSteps(prefix, t.pattern, matching);
    if NormalizePrefix(prefix) == "" {
      NormalizeKeepsSegments(prefix);
      EmptySegments();
      SameSegments(prefix, "", matching);
      NoSteps(matching);
      assert steps + q == q;
    }
  }

  lemma NoSteps(matching: Matching)
    ensures TextSteps("", matching) == Some([])
  {
    EmptySegments();
    DecodeAllNone();
  }

  /** The route table after a mount. */
  lemma MountedHold(before: seq<Node>, after: seq<Node>, mounted: seq<Node>, matching: Matching,
                    routes: Routes, mountedRoutes: Routes, prefix: string, steps: Pattern, destination: nat)
    requires before != [] && after != [] && mounted != [] && destination < |before|
    requires Holds(before, matching, routes) && Holds(mounted, matching, mountedRoutes)
    requires TextSteps(prefix, matching) == Some(steps) && Walk(before, 0, steps) == Some(destination)
    requires CompatibleEverywhere(before, mounted, destination, 0)
    requires forall q :: DataAt(after, 0, steps + q) ==
               MergeData(DataAt(before, 0, steps + q), PrefixData(DataAt(mounted, 0, q), prefix))
    requires forall q :: !(steps <= q) ==> DataAt(after, 0, q) == DataAt(before, 0, q)
    ensures var union := routes + MountedRoutes(mountedRoutes, steps, prefix);
            && Holds(after, matching, union)
            && |union| == |routes| + |mountedRoutes|
            && routes.Keys !! ShiftKeys(mountedRoutes.Keys, steps)
  {
    hide TextSteps, ShiftKeys, DataAt, CompatibleEverywhere, MountedRoutes, MergeData, PrefixData;
    MountDisjoint(before, mounted, matching, routes, mountedRoutes, steps, destination);
    MountedSize(routes, mountedRoutes, steps, prefix);
    var union := routes + MountedRoutes(mountedRoutes, steps, prefix);
    forall verb: nat, p: Pattern
      ensures (verb, p) in union <==> verb in DataAt(after, 0, p).targets
      ensures (verb, p) in union ==>
                union[(verb, p)] == DataAt(after, 0, p).targets[verb]
                && TextSteps(union[(verb, p)].pattern, matching) == Some(p)
    {
      if steps <= p {
        MountedHoldUnder(before, after, mounted, matching, routes, mountedRoutes, prefix, steps, verb, p);
      } else {
        MountedHoldBeside(before, after, matching, routes, mountedRoutes, prefix, steps, verb, p);
      }
    }
  }

  lemma MountedSize(routes: Routes, mountedRoutes: Routes, steps: Pattern, prefix: string)
    requires routes.Keys !! ShiftKeys(mountedRoutes.Keys, steps)
    ensures |routes + MountedRoutes(mountedRoutes, steps, prefix)| == |routes| + |mountedRoutes|
  {
    hide ShiftKeys;
    var shifted := MountedRoutes(mountedRoutes, steps, prefix);
    ShiftKeysSize(mountedRoutes.Keys, steps);
    assert (routes + shifted).Keys == routes.Keys + shifted.Keys;
    assert |routes.Keys + shifted.Keys| == |routes.Keys| + |shifted.Keys|;
  }

  /** Routes that are not under the prefix stay what they were. */
  lemma MountedHoldBeside(before: seq<Node>, after: seq<Node>, matching: Matching, routes: Routes,
                          mountedRoutes: Routes, prefix: string, steps: Pattern, verb: nat, p: Pattern)
    requires before != [] && after != [] && !(steps <= p)
    requires Holds(before, matching, routes) && DataAt(after, 0, p) == DataAt(before, 0, p)
    ensures var union := routes + MountedRoutes(mountedRoutes, steps, prefix);
            && ((verb, p) in union <==> verb in DataAt(after, 0, p).targets)
            && ((verb, p) in union ==>
                  union[(verb, p)] == DataAt(after, 0, p).targets[verb]
                  && TextSteps(union[(verb, p)].pattern, matching) == Some(p))
  {
    hide TextSteps, ShiftKeys, DataAt, PrefixTarget;
    ShiftedKey(mountedRoutes.Keys, steps, (verb, p));
    assert (verb, p) in routes <==> verb in DataAt(before, 0, p).targets;
  }

  lemma MountedHoldUnder(before: seq<Node>, after: seq<Node>, mounted: seq<Node>, matching: Matching,
                         routes: Routes, mountedRoutes: Routes, prefix: string, steps: Pattern,
                         verb: nat, p: Pattern)
    requires before != [] && after != [] && mounted != [] && steps <= p
    requires Holds(before, matching, routes) && Holds(mounted, matching, mountedRoutes)
    requires TextSteps(prefix, matching) == Some(steps)
    requires DataAt(after, 0, steps + p[|steps|..]) ==
             MergeData(DataAt(before, 0, steps + p[|steps|..]),
                       PrefixData(DataAt(mounted, 0, p[|steps|..]), prefix))
    ensures var union := routes + MountedRoutes(mountedRoutes, steps, prefix);
            && ((verb, p) in union <==> verb in DataAt(after, 0, p).targets)
            && ((verb, p) in union ==>
                  union[(verb, p)] == DataAt(after, 0, p).targets[verb]
                  && TextSteps(union[(verb, p)].pattern, matching) == Some(p))
  {
    hide TextSteps, ShiftKeys, DataAt, PrefixTarget;
    var q := p[|steps|..];
    assert steps + q == p;
    ShiftedKey(mountedRoutes.Keys, steps, (verb, p));
    assert (verb, q) in mountedRoutes <==> verb in DataAt(mounted, 0, q).targets;
    if (verb, q) in mountedRoutes {
      MountedText(prefix, steps, matching, mountedRoutes[(verb, q)], q);
    }
  }

  lemma EmptyRouter(matching: Matching)
    ensures Labelled([EMPTY_NODE], [[]]) && Holds([EMPTY_NODE], matching, map[])
  {
    assert forall step :: Next(EMPTY_NODE, step).None?;
    assert forall q :: DataAt([EMPTY_NODE], 0, q) == EMPTY_DATA;
  }

  // ---------------------------------------------------------------- the router

  class RouterObject {
    const matching: Matching
    var nodes: seq<Node>
    var routeCount: nat
    ghost var labels: seq<Pattern>
    ghost var routes: Routes

    ghost predicate Valid()
      reads this
    {
      && Labelled(nodes, labels)
      && Holds(nodes, matching, routes)
      && routeCount == |routes|
    }

    constructor (matching: Matching)
      ensures Valid() && this.matching == matching
      ensures routes == map[] && nodes == [EMPTY_NODE] && routeCount == 0
    {
      this.matching := matching;
      nodes := [EMPTY_NODE];
      routeCount := 0;
      labels := [[]];
      routes := map[];
      new;
      assert forall step :: Next(EMPTY_NODE, step).None?;
    }

    /** The child for a step, created empty when missing. */
    method ChildFor(node: nat, step: Step) returns (child: nat)
      requires Labelled(nodes, labels) && node < |nodes| == |labels|
      requires Next(nodes[node], step).Some? || Free(nodes[node], step)
      requires WellFormed(labels[node] + [step])
      modifies this`nodes, this`labels
      ensures Labelled(nodes, labels) && old(labels) <= labels
      ensures forall q :: DataAt(nodes, 0, q) == DataAt(old(nodes), 0, q)
      ensures child < |nodes| == |labels| && labels[child] == old(labels)[node] + [step]
      ensures node < |nodes| == |labels| && Next(nodes[node], step) == Some(child) && node < child
      ensures if Next(old(nodes)[node], step).Some?
              then nodes == old(nodes) && child == Next(old(nodes)[node], step).value
              else nodes[child] == EMPTY_NODE
      ensures forall p :: Walk(old(nodes), 0, p).Some? ==> Walk(nodes, 0, p) == Walk(old(nodes), 0, p)
    {
      var found := Next(nodes[node], step);
      if found.Some? {
        return found.value;
      }
      LinkIsInvisible(nodes, labels, node, step);
      LabelledIsTidy(nodes, labels);
      WithChildNext(nodes[node], step, |nodes|);
      ghost var before := nodes;
      child := |nodes|;
      nodes := nodes + [EMPTY_NODE];
      nodes := nodes[node := WithChild(nodes[node], step, child)];
      labels := labels + [labels[node] + [step]];
      assert nodes == Link(before, node, step);
      forall p | Walk(before, 0, p).Some?
        ensures Walk(nodes, 0, p) == Walk(before, 0, p)
      {
        LinkWalk(before, node, step, 0, p);
      }
    }

    /** Walks down the steps from the root, creating nodes; a refusal may leave empty nodes behind. */
    method Descend(steps: Pattern, isPrefix: bool) returns (node: nat, error: Option<Error>)
      requires Labelled(nodes, labels)
      modifies this`nodes, this`labels
      ensures Labelled(nodes, labels) && old(labels) <= labels
      ensures forall q :: DataAt(nodes, 0, q) == DataAt(old(nodes), 0, q)
      ensures error == DescendError(old(nodes), 0, steps, isPrefix)
      ensures error.None? ==>
                && node < |nodes| == |labels| && Walk(nodes, 0, steps) == Some(node) && labels[node] == steps
                && (isPrefix ==> NoWild(steps))
                && old(nodes) != [] && Reached(old(nodes), nodes, steps, node)
    {
      hide Labelled, Walk, DataAt, DescendError, Next, Free, WellFormed, StepError, Reached, Ordered;
      RootLabel(nodes, labels);
      LabelledIsTidy(nodes, labels);
      FirstReached(nodes);
      node := 0;
      error := None;
      var index := 0;
      assert steps[0..] == steps && steps[..0] == [];
      while index < |steps|
        invariant index <= |steps| && node < |nodes| == |labels|
        invariant Labelled(nodes, labels) && old(labels) <= labels
        invariant forall q :: DataAt(nodes, 0, q) == DataAt(old(nodes), 0, q)
        invariant DescendError(old(nodes), 0, steps, isPrefix) == DescendError(nodes, node, steps[index..], isPrefix)
        invariant Walk(nodes, 0, steps[..index]) == Some(node) && labels[node] == steps[..index]
        invariant Reached(old(nodes), nodes, steps[..index], node)
        invariant index < |steps| || isPrefix ==> NoWild(steps[..index])
        invariant Named(steps[..index])
        invariant error.None?
      {
        var step := steps[index];
        ghost var rest := steps[index..];
        assert rest[0] == step && rest[1..] == steps[index + 1..];
        DescendUnfold(nodes, node, rest, isPrefix);
        error := StepError(nodes[node], step, index + 1 == |steps|, isPrefix);
        if error.Some? {
          return;
        }
        ghost var parent, before := node, nodes;
        assert steps[..index + 1] == steps[..index] + [step];
        StepIsSound(nodes[node], steps, index, isPrefix);
        node := ChildFor(node, step);
        WalkOneMore(nodes, steps[..index], parent, step);
        ReachedStep(old(nodes), before, nodes, steps[..index], step, parent, node);
        if Next(before[parent], step).None? {
          DescendFromEmpty(nodes, node, steps[index + 1..], isPrefix);
        }
        index := index + 1;
      }
      assert steps[..index] == steps && steps[index..] == [];
      DescendUnfold(nodes, node, [], isPrefix);
    }

    method AddRoute(verb: nat, pattern: string, handler: int) returns (error: Option<Error>)
      requires Valid()
      modifies this
      ensures Valid()
      ensures error == AddRouteError(old(nodes), matching, verb, pattern)
      ensures error.Some? ==> routes == old(routes) && forall q :: DataAt(nodes, 0, q) == DataAt(old(nodes), 0, q)
      ensures error.None? ==>
                var text := JoinPattern("", pattern);
                var steps := TextSteps(text, matching).value;
                var target := Target(handler, text);
                && (verb, steps) !in old(routes) && routes == old(routes)[(verb, steps) := target]
                && forall q :: DataAt(nodes, 0, q) ==
                     var was := DataAt(old(nodes), 0, q);
                     if q == steps then was.(targets := was.targets[verb := target]) else was
    {
      hide Labelled, Walk, DataAt, DescendError, Holds, Parse, JoinPattern;
      if METHOD_COUNT <= verb {
        return Some(MethodOutOfRange);
      }
      var text := JoinPattern("", pattern);
      var parsed := ParseRoutePath(text);
      if parsed.Invalid? {
        return Some(InvalidEscape);
      }
      var steps := StepsOf(parsed.raw, Selected(parsed, matching));
      var node;
      RootLabel(nodes, labels);
      node, error := Descend(steps, false);
      RootLabel(nodes, labels);
      HoldsSame(old(nodes), nodes, matching, routes);
      if error.Some? {
        return;
      }
      DataIs(nodes, steps, node);
      var data := nodes[node].data;
      if verb in data.targets {
        return Some(AlreadyRegistered);
      }
      var target := Target(handler, text);
      StoreShows(nodes, labels, node, data.(targets := data.targets[verb := target]), steps);
      ghost var before := nodes;
      nodes := nodes[node := nodes[node].(data := data.(targets := data.targets[verb := target]))];
      routeCount := routeCount + 1;
      HoldsAfterAdd(before, nodes, matching, routes, verb, steps, target);
      routes := routes[(verb, steps) := target];
    }

    /** Hooks and fallbacks attach to the node of a prefix. */
    method AttachTo(prefix: string, attachment: Attachment) returns (error: Option<Error>)
      requires Valid()
      modifies this
      ensures Valid() && routes == old(routes)
      ensures error == PrefixError(old(nodes), matching, prefix)
      ensures error.Some? ==> forall q :: DataAt(nodes, 0, q) == DataAt(old(nodes), 0, q)
      ensures error.None? ==>
                var steps := TextSteps(prefix, matching).value;
                forall q :: DataAt(nodes, 0, q) ==
                  if q == steps then Attach(DataAt(old(nodes), 0, q), attachment) else DataAt(old(nodes), 0, q)
    {
      var node;
      node, error := EnsurePrefixNode(prefix);
      if error.None? {
        ghost var steps := TextSteps(prefix, matching).value;
        StoreShows(nodes, labels, node, Attach(nodes[node].data, attachment), steps);
        nodes := nodes[node := nodes[node].(data := Attach(nodes[node].data, attachment))];
      }
    }

    method EnsurePrefixNode(prefix: string) returns (node: nat, error: Option<Error>)
      requires Labelled(nodes, labels)
      modifies this`nodes, this`labels
      ensures Labelled(nodes, labels) && old(labels) <= labels
      ensures forall q :: DataAt(nodes, 0, q) == DataAt(old(nodes), 0, q)
      ensures error == PrefixError(old(nodes), matching, prefix)
      ensures error.None? ==>
                var steps := TextSteps(prefix, matching).value;
                && node < |nodes| && Walk(nodes, 0, steps) == Some(node) && labels[node] == steps && NoWild(steps)
                && old(nodes) != [] && Reached(old(nodes), nodes, steps, node)
    {
      var parsed := ParseRoutePath(prefix);
      if parsed.Invalid? {
        return 0, Some(InvalidEscape);
      }
      node, error := Descend(StepsOf(parsed.raw, Selected(parsed, matching)), true);
    }

    /** `match`: the trie walk answers as the linear scan over the registered routes does. */
    method FindMatch(verb: nat, path: string) returns (r: MatchResult)
      requires Valid()
      ensures r.InvalidPath? <==> Parse(path).Invalid?
      ensures verb >= METHOD_COUNT && Parse(path).Path? ==> r.NoRoute?
      ensures verb < METHOD_COUNT && Parse(path).Path? ==>
                IsScanResult(nodes, routes, verb, Selected(Parse(path), matching), r)
    {
      hide DataAt, MatchNode, Parse;
      var parsed := ParseRoutePath(path);
      if parsed.Invalid? {
        return InvalidPath;
      }
      if METHOD_COUNT <= verb {
        return NoRoute;
      }
      var segments := Selected(parsed, matching);
      LabelledIsTidy(nodes, labels);
      var found := MatchNode(nodes, 0, verb, segments, [], NO_HOOKS);
      MatchIsScan(nodes, matching, routes, verb, segments);
      r := if found.Some? then Found(found.value) else NoRoute;
    }

    /** The methods, in table order, under which some registered pattern accepts the path. */
    method AllowedMethods(path: string) returns (methods: seq<nat>)
      requires Valid()
      ensures Parse(path).Invalid? ==> methods == []
      ensures forall i, j :: 0 <= i < j < |methods| ==> methods[i] < methods[j]
      ensures Parse(path).Path? ==>
                forall verb: nat :: verb in methods <==>
                  verb < ROUTED_METHODS && SomeRoute(routes, verb, Selected(Parse(path), matching))
    {
      hide DataAt, MatchNode, Parse, SomeRoute, IsScanResult, Labelled, Ordered, Tidy, Holds;
      methods := [];
      var parsed := ParseRoutePath(path);
      if parsed.Invalid? {
        return;
      }
      RootLabel(nodes, labels);
      LabelledIsTidy(nodes, labels);
      var segments := Selected(parsed, matching);
      for verb := 0 to ROUTED_METHODS
        invariant forall i, j :: 0 <= i < j < |methods| ==> methods[i] < methods[j]
        invariant forall i :: 0 <= i < |methods| ==> methods[i] < verb
        invariant forall m: nat :: m in methods <==> m < verb && SomeRoute(routes, m, segments)
      {
        MatchIsScan(nodes, matching, routes, verb, segments);
        if MatchNode(nodes, 0, verb, segments, [], NO_HOOKS).Some? {
          methods := methods + [verb];
        }
      }
    }

    /** `validate_mount_node`: a read-only recursion over the nodes both tries have. */
    static method ValidateMountNode(nodes: seq<Node>, mounted: seq<Node>, d: nat, s: nat) returns (clash: Option<Clash>)
      requires Ordered(nodes) && Ordered(mounted) && d < |nodes| && s < |mounted|
      ensures clash.None? <==> CanMerge(nodes, mounted, d, s)
      ensures clash.Some? ==> Reports(nodes, mounted, d, s, clash.value)
      decreases |mounted| - s
    {
      hide Compatible, CanMerge, Reports, StoredClash;
      var a, b := nodes[d], mounted[s];
      ClashBlocks(nodes, mounted, d, s);
      if !(a.data.targets.Keys !! b.data.targets.Keys) {
        StoredFirst(nodes, mounted, d, s);
        return Some(RouteClash);
      }
      if a.data.notFound.Some? && b.data.notFound.Some? {
        StoredFirst(nodes, mounted, d, s);
        return Some(NotFoundClash);
      }
      if a.data.exceptionHandler.Some? && b.data.exceptionHandler.Some? {
        StoredFirst(nodes, mounted, d, s);
        return Some(ExceptionClash);
      }
      StoredFirst(nodes, mounted, d, s);
      var todo := b.statics.Keys * a.statics.Keys;
      while todo != {}
        invariant todo <= b.statics.Keys * a.statics.Keys
        invariant forall text :: text in b.statics && text in a.statics && text !in todo ==>
                    !ChildClash(nodes, mounted, d, s, Static(text))
        decreases todo
      {
        var text :| text in todo;
        assert Next(a, Static(text)).Some? && Next(b, Static(text)).Some?;
        clash := ValidateMountNode(nodes, mounted, a.statics[text], b.statics[text]);
        if clash.Some? {
          StaticReported(nodes, mounted, d, s, text, clash.value);
          return;
        }
        todo := todo - {text};
      }
      NoStaticClash(nodes, mounted, d, s);
      if a.parameter.Some? && b.parameter.Some? {
        if a.parameter.value.name != b.parameter.value.name {
          NamesReported(nodes, mounted, d, s);
          return Some(ParameterClash);
        }
        var step := Param(b.parameter.value.name);
        assert Next(a, step).Some? && Next(b, step).Some?;
        clash := ValidateMountNode(nodes, mounted, a.parameter.value.node, b.parameter.value.node);
        if clash.Some? {
          NamedReported(nodes, mounted, d, s, step, clash.value);
          return;
        }
      }
      if a.wildcard.Some? && b.wildcard.Some? {
        if a.wildcard.value.name != b.wildcard.value.name {
          NamesReported(nodes, mounted, d, s);
          return Some(WildcardClash);
        }
        var step := Wild(b.wildcard.value.name);
        assert Next(a, step).Some? && Next(b, step).Some?;
        clash := ValidateMountNode(nodes, mounted, a.wildcard.value.node, b.wildcard.value.node);
        if clash.Some? {
          NamedReported(nodes, mounted, d, s, step, clash.value);
          return;
        }
      }
      NothingReported(nodes, mounted, d, s);
      return None;
    }

    /** `merge_mount_node`: adds the source node and everything below it to the destination node. */
    method MergeNode(m: seq<Node>, d: nat, s: nat, ghost labelsM: seq<Pattern>, ghost p: Pattern)
      requires Labelled(nodes, labels) && Labelled(m, labelsM)
      requires Ordered(nodes) && Ordered(m) && d < |nodes| == |labels| && s < |m| == |labelsM|
      requires NoWild(p) && WellFormed(p) && labels[d] == p + labelsM[s]
      requires CanMerge(nodes, m, d, s)
      modifies this`nodes, this`labels
      ensures ChangedBelow(old(nodes), old(labels), nodes, labels, old(labels)[d])
      ensures Ordered(nodes) && |old(nodes)| <= |nodes| && Merged(old(nodes), nodes, m, d, s)
      decreases |m| - s, 1
    {
      hide Labelled, Ordered, DataAt, MergeData, CanMerge, WellFormed, NoWild, Merged, ChangedBelow;
      ghost var before, labelsBefore := nodes, labels;
      nodes := nodes[d := nodes[d].(data := MergeData(nodes[d].data, m[s].data))];
      ghost var stored := nodes;
      ghost var done: set<Step> := {};
      ProgressStart(before, labels, m, d, s);
      var todo := m[s].statics.Keys;
      while todo != {}
        invariant todo <= m[s].statics.Keys
        invariant Progress(stored, labelsBefore, nodes, labels, m, d, s, done)
        invariant forall text :: Static(text) in done <==> text in m[s].statics && text !in todo
        invariant forall step :: step in done ==> step.Static?
        decreases todo
      {
        var text :| text in todo;
        MergeChild(m, d, s, Static(text), labelsM, p, stored, labelsBefore, done);
        done := done + {Static(text)};
        todo := todo - {text};
      }
      if m[s].parameter.Some? {
        var step := Param(m[s].parameter.value.name);
        MergeChild(m, d, s, step, labelsM, p, stored, labelsBefore, done);
        done := done + {step};
      }
      if m[s].wildcard.Some? {
        var step := Wild(m[s].wildcard.value.name);
        MergeChild(m, d, s, step, labelsM, p, stored, labelsBefore, done);
        done := done + {step};
      }
      AllChildrenDone(m[s], done);
      ProgressDone(before, labelsBefore, stored, nodes, labels, m, d, s, done);
    }

    /** One child of the source node: merged into the destination's child, or moved over whole. */
    method MergeChild(m: seq<Node>, d: nat, s: nat, step: Step, ghost labelsM: seq<Pattern>, ghost p: Pattern,
                      ghost stored: seq<Node>, ghost labelsStored: seq<Pattern>, ghost done: set<Step>)
      requires Labelled(m, labelsM) && |m| == |labelsM| && NoWild(p) && WellFormed(p)
      requires Progress(stored, labelsStored, nodes, labels, m, d, s, done)
      requires d < |labelsStored| && labelsStored[d] == p + labelsM[s]
      requires step !in done && Next(m[s], step).Some?
      modifies this`nodes, this`labels
      ensures Progress(stored, labelsStored, nodes, labels, m, d, s, done + {step})
      decreases |m| - s, 0
    {
      hide DataAt, MergeData, CanMerge, WellFormed, NoWild, Walk;
      ghost var before, labelsBefore := nodes, labels;
      assert labels[d] == labelsStored[d];
      var source := Next(m[s], step).value;
      assert labelsM[source] == labelsM[s] + [step];
      assert labels[d] + [step] == p + labelsM[source];
      assert Pending(nodes, m, d, s, step);
      var child := Next(nodes[d], step);
      if child.Some? {
        MergeNode(m, child.value, source, labelsM, p);
        MergedInto(before, labelsBefore, nodes, labels, m, d, s, step);
      } else {
        LongerWellFormed(p, labelsM[source]);
        var moved := MoveSubtree(m, source, labelsM, p);
        ghost var unlinked := nodes;
        nodes := nodes[d := WithChild(nodes[d], step, moved)];
        MovedInto(before, labelsBefore, unlinked, nodes, labels, m, d, s, step);
      }
      ProgressStep(stored, labelsStored, before, labelsBefore, nodes, labels, m, d, s, done, step);
    }

    /** `move_mount_subtree`: a new node, not linked yet, that receives the whole source subtree. */
    method MoveSubtree(m: seq<Node>, s: nat, ghost labelsM: seq<Pattern>, ghost p: Pattern)
      returns (moved: nat)
      requires Labelled(nodes, labels) && Labelled(m, labelsM)
      requires Ordered(nodes) && Ordered(m) && |nodes| == |labels| && s < |m| == |labelsM|
      requires NoWild(p) && WellFormed(p) && WellFormed(p + labelsM[s])
      modifies this`nodes, this`labels
      ensures moved == |old(nodes)| && Ordered(nodes)
      ensures ChangedBelow(old(nodes) + [EMPTY_NODE], old(labels) + [p + labelsM[s]], nodes, labels, p + labelsM[s])
      ensures moved < |nodes| && Merged(old(nodes) + [EMPTY_NODE], nodes, m, moved, s)
      decreases |m| - s, 2
    {
      moved := |nodes|;
      AppendUnlinked(nodes, labels, p + labelsM[s]);
      nodes := nodes + [EMPTY_NODE];
      labels := labels + [p + labelsM[s]];
      MergeIntoEmpty(nodes, m, moved, s);
      MergeNode(m, moved, s, labelsM, p);
    }

    /** Mounting: the union of the two route tables, the mounted one moved under the prefix. */
    method Mount(prefix: string, mounted: RouterObject) returns (error: Option<Error>)
      requires Valid() && mounted.Valid()
      modifies this, mounted
      ensures Valid() && mounted.Valid()
      ensures mounted == this ==> error == Some(MountsItself)
      ensures mounted != this && mounted.matching != matching ==> error == Some(MatchingModeConflict)
      ensures mounted != this && mounted.matching == matching && PrefixError(old(nodes), matching, prefix).Some? ==>
                error == PrefixError(old(nodes), matching, prefix)
      ensures mounted != this && mounted.matching == matching && PrefixError(old(nodes), matching, prefix).None? ==>
                && old(nodes) != [] && old(mounted.nodes) != []
                && (error.None? <==> Mountable(old(nodes), old(mounted.nodes), TextSteps(prefix, matching).value))
                && (error.Some? ==>
                      && error.value.MountConflict?
                      && ClashAt(old(nodes), old(mounted.nodes), TextSteps(prefix, matching).value, error.value.clash))
      ensures error.Some? ==>
                && routes == old(routes) && (forall q :: DataAt(nodes, 0, q) == DataAt(old(nodes), 0, q))
                && (mounted != this ==> mounted.nodes == old(mounted.nodes) && mounted.routes == old(mounted.routes))
      ensures error.None? ==>
                var steps := TextSteps(prefix, matching).value;
                && NoWild(steps)
                && old(routes).Keys !! ShiftKeys(old(mounted.routes).Keys, steps)
                && routes == old(routes) + MountedRoutes(old(mounted.routes), steps, prefix)
                && routeCount == old(routeCount) + old(mounted.routeCount)
                && (forall q :: DataAt(nodes, 0, steps + q) ==
                      MergeData(DataAt(old(nodes), 0, steps + q), PrefixData(DataAt(old(mounted.nodes), 0, q), prefix)))
                && (forall q :: !(steps <= q) ==> DataAt(nodes, 0, q) == DataAt(old(nodes), 0, q))
                && mounted.nodes == [EMPTY_NODE] && mounted.routes == map[] && mounted.routeCount == 0
    {
      hide Labelled, Holds, DataAt, Walk, DescendError, CompatibleEverywhere, CanMerge, MergeData, PrefixData,
           ShiftKeys, MountedRoutes, NoWild, TextSteps, Reached, Mountable, Reports, ClashAt;
      if mounted == this {
        return Some(MountsItself);
      }
      if mounted.matching != matching {
        return Some(MatchingModeConflict);
      }
      RootLabel(nodes, labels);
      var destination;
      destination, error := EnsurePrefixNode(prefix);
      RootLabel(nodes, labels);
      HoldsSame(old(nodes), nodes, matching, routes);
      if error.Some? {
        return;
      }
      LabelledIsTidy(nodes, labels);
      LabelledIsTidy(mounted.nodes, mounted.labels);
      RootLabel(mounted.nodes, mounted.labels);
      MountableAfter(old(nodes), nodes, mounted.nodes, TextSteps(prefix, matching).value, destination);
      var clash := ValidateMountNode(nodes, mounted.nodes, destination, 0);
      CanMergeExact(nodes, mounted.nodes, destination, 0);
      if clash.Some? {
        ClashBefore(old(nodes), nodes, mounted.nodes, TextSteps(prefix, matching).value, destination, clash.value);
        return Some(MountConflict(clash.value));
      }
      MergeMounted(prefix, mounted, destination);
    }

    /** The part of `mount` after validation: merge, add up the counts, empty the mounted router. */
    method MergeMounted(prefix: string, mounted: RouterObject, destination: nat)
      requires Valid() && mounted.Valid() && mounted != this && mounted.matching == matching
      requires TextSteps(prefix, matching).Some? && NoWild(TextSteps(prefix, matching).value)
      requires destination < |nodes| == |labels| && labels[destination] == TextSteps(prefix, matching).value
      requires Walk(nodes, 0, TextSteps(prefix, matching).value) == Some(destination)
      requires 0 < |mounted.nodes| && CompatibleEverywhere(nodes, mounted.nodes, destination, 0)
      modifies this, mounted
      ensures Valid() && mounted.Valid()
      ensures var steps := TextSteps(prefix, matching).value;
              && old(routes).Keys !! ShiftKeys(old(mounted.routes).Keys, steps)
              && routes == old(routes) + MountedRoutes(old(mounted.routes), steps, prefix)
              && routeCount == old(routeCount) + old(mounted.routeCount)
              && (forall q :: DataAt(nodes, 0, steps + q) ==
                    MergeData(DataAt(old(nodes), 0, steps + q), PrefixData(DataAt(old(mounted.nodes), 0, q), prefix)))
              && (forall q :: !(steps <= q) ==> DataAt(nodes, 0, q) == DataAt(old(nodes), 0, q))
      ensures mounted.nodes == [EMPTY_NODE] && mounted.routes == map[] && mounted.routeCount == 0
    {
      hide Labelled, Holds, DataAt, Walk, CompatibleEverywhere, CanMerge, MergeData, PrefixData, ShiftKeys,
           MountedRoutes, NoWild, TextSteps;
      ghost var steps := TextSteps(prefix, matching).value;
      ghost var before, labelsBefore := nodes, labels;
      var moving := PrefixNodes(mounted.nodes, prefix);
      PrefixLabelled(mounted.nodes, mounted.labels, prefix);
      RootLabel(moving, mounted.labels);
      LabelledIsTidy(moving, mounted.labels);
      LabelledIsTidy(nodes, labels);
      PrefixCompatible(nodes, mounted.nodes, prefix, destination, 0);
      CanMergeExact(nodes, moving, destination, 0);
      LabelWellFormed(nodes, labels, destination);
      assert labels[destination] == steps + mounted.labels[0];
      MergeNode(moving, destination, 0, mounted.labels, steps);
      MountShows(before, labelsBefore, nodes, labels, mounted.nodes, prefix, destination, steps);
      RootLabel(nodes, labels);
      MountedHold(before, nodes, mounted.nodes, matching, routes, mounted.routes, prefix, steps, destination);
      routeCount := routeCount + mounted.routeCount;
      routes := routes + MountedRoutes(mounted.routes, steps, prefix);
      mounted.nodes := [EMPTY_NODE];
      mounted.routeCount := 0;
      mounted.labels := [[]];
      mounted.routes := map[];
      EmptyRouter(mounted.matching);
    }
  }
}
