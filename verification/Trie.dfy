/** The route trie: index-linked nodes, the backtracking match, and the linear pattern matcher that it
    must agree with. */
module Trie {
  import opened Text
  import RoutePath

  /** One pattern segment: literal text, `:name`, or a final `*name`. */
  datatype Step = Static(text: string) | Param(name: string) | Wild(name: string)

  type Pattern = seq<Step>

  /** Hooks and handlers are opaque; what matters is which ones are collected, and in what order. */
  type Hook = int

  type Params = seq<(string, string)>

  datatype Target = Target(handler: int, pattern: string)

  datatype NodeData = NodeData(
    targets: map<nat, Target>,
    onRequest: seq<Hook>,
    preHandler: seq<Hook>,
    onResponse: seq<Hook>,
    notFound: Option<Hook>,
    exceptionHandler: Option<Hook>)

  datatype Child = Child(name: string, node: nat)

  datatype Node = Node(
    statics: map<string, nat>,
    parameter: Option<Child>,
    wildcard: Option<Child>,
    data: NodeData)

  const EMPTY_DATA := NodeData(map[], [], [], [], None, None)
  const EMPTY_NODE := Node(map[], None, None, EMPTY_DATA)

  /** Replaces the value stored under a name, or adds the pair at the end. */
  function SetParam(params: Params, name: string, value: string): Params {
    if params == [] then [(name, value)]
    else if params[0].0 == name then [(name, value)] + params[1..]
    else [params[0]] + SetParam(params[1..], name, value)
  }

  function SetNamed(params: Params, name: string, value: string): Params {
    if name == "" then params else SetParam(params, name, value)
  }

  // ---------------------------------------------------------------- patterns

  function StepOf(raw: string, selected: string): Step {
    if "*" <= raw then Wild(raw[1..])
    else if ":" <= raw then Param(raw[1..])
    else Static(selected)
  }

  function StepsOf(raw: seq<string>, selected: seq<string>): (steps: Pattern)
    requires |raw| == |selected|
    ensures |steps| == |raw|
    ensures forall k :: 0 <= k < |raw| ==> steps[k] == StepOf(raw[k], selected[k])
  {
    seq(|raw|, k requires 0 <= k < |raw| => StepOf(raw[k], selected[k]))
  }

  /** What a pattern accepts. */
  predicate Matches(pattern: Pattern, segments: seq<string>) {
    if pattern == [] then segments == []
    else
      match pattern[0]
      case Wild(_) => |pattern| == 1
      case Param(_) => segments != [] && Matches(pattern[1..], segments[1..])
      case Static(text) => segments != [] && text == segments[0] && Matches(pattern[1..], segments[1..])
  }

  /** The linear matcher, with the parameters it collects. */
  function Linear(pattern: Pattern, segments: seq<string>, params: Params): (r: Option<Params>)
    ensures r.Some? <==> Matches(pattern, segments)
  {
    if pattern == [] then (if segments == [] then Some(params) else None)
    else
      match pattern[0]
      case Wild(name) =>
        if |pattern| == 1 then Some(SetNamed(params, name, RoutePath.Join(segments))) else None
      case Param(name) =>
        if segments == [] then None
        else Linear(pattern[1..], segments[1..], SetNamed(params, name, segments[0]))
      case Static(text) =>
        if segments == [] || text != segments[0] then None
        else Linear(pattern[1..], segments[1..], params)
  }

  // ---------------------------------------------------------------- what a match captures

  /** The value of the first pair with that name (`route_params::get`). */
  function Get(params: Params, name: string): Option<string> {
    if params == [] then None
    else if params[0].0 == name then Some(params[0].1)
    else Get(params[1..], name)
  }

  predicate UniqueNames(params: Params) {
    forall i, j :: 0 <= i < j < |params| ==> params[i].0 != params[j].0
  }

  lemma {:induction false} GetNone(params: Params, name: string)
    ensures Get(params, name).None? <==> forall i :: 0 <= i < |params| ==> params[i].0 != name
  {
    if params != [] {
      GetNone(params[1..], name);
      assert forall i :: 0 < i < |params| ==> params[i] == params[1..][i - 1];
    }
  }

  lemma {:induction false} GetAfterSet(params: Params, name: string, value: string, other: string)
    ensures Get(SetParam(params, name, value), other) == if other == name then Some(value) else Get(params, other)
  {
    if params != [] && params[0].0 != name {
      GetAfterSet(params[1..], name, value, other);
    }
  }

  lemma {:induction false} UniqueAfterSet(params: Params, name: string, value: string)
    requires UniqueNames(params)
    ensures UniqueNames(SetParam(params, name, value))
  {
    if params != [] && params[0].0 != name {
      var rest := SetParam(params[1..], name, value);
      UniqueAfterSet(params[1..], name, value);
      GetNone(params[1..], params[0].0);
      GetAfterSet(params[1..], name, value, params[0].0);
      GetNone(rest, params[0].0);
    }
  }

  predicate Binds(step: Step, name: string) {
    !step.Static? && step.name == name && name != ""
  }

  /** Position `k` is the last one in the pattern that binds the name. */
  predicate BindsLast(pattern: Pattern, name: string, k: nat) {
    k < |pattern| && Binds(pattern[k], name) && forall j :: k < j < |pattern| ==> !Binds(pattern[j], name)
  }

  predicate BindsNowhere(pattern: Pattern, name: string) {
    forall j :: 0 <= j < |pattern| ==> !Binds(pattern[j], name)
  }

  /** A named parameter has the segment at its last place in the pattern, a final wildcard the rest of the
      path; names the pattern does not bind have no value, and no name occurs twice. */
  ghost predicate Captured(pattern: Pattern, segments: seq<string>, params: Params) {
    && UniqueNames(params)
    && (forall name :: BindsNowhere(pattern, name) ==> Get(params, name).None?)
    && forall name, k: nat :: BindsLast(pattern, name, k) ==> GivesValue(pattern[k], segments, k, Get(params, name))
  }

  /** The value a step at position `k` gives its name. */
  predicate GivesValue(step: Step, segments: seq<string>, k: nat, value: Option<string>) {
    match step
    case Param(_) => k < |segments| && value == Some(segments[k])
    case Wild(_) => k <= |segments| && value == Some(RoutePath.Join(segments[k..]))
    case Static(_) => false
  }

  lemma {:induction false} LinearCaptures(
      pattern: Pattern, segments: seq<string>, before: Params, after: Params, name: string)
    requires Linear(pattern, segments, before) == Some(after)
    ensures UniqueNames(before) ==> UniqueNames(after)
    ensures BindsNowhere(pattern, name) ==> Get(after, name) == Get(before, name)
    ensures forall k: nat :: BindsLast(pattern, name, k) ==> GivesValue(pattern[k], segments, k, Get(after, name))
    decreases |pattern|
  {
    hide SetParam, Get, UniqueNames, RoutePath.Join;
    if pattern != [] {
      var step, rest := pattern[0], pattern[1..];
      assert segments[0..] == segments;
      if !step.Static? && step.name != "" {
        var value := if step.Wild? then RoutePath.Join(segments) else segments[0];
        GetAfterSet(before, step.name, value, name);
        if UniqueNames(before) {
          UniqueAfterSet(before, step.name, value);
        }
      }
      if !step.Wild? {
        var bound := if step.Param? then SetNamed(before, step.name, segments[0]) else before;
        LinearCaptures(rest, segments[1..], bound, after, name);
        assert BindsNowhere(pattern, name) ==> BindsNowhere(rest, name);
        forall k: nat | BindsLast(pattern, name, k) ensures GivesValue(pattern[k], segments, k, Get(after, name)) {
          LastBelow(pattern, name, k);
          if k > 0 {
            assert GivesValue(rest[k - 1], segments[1..], k - 1, Get(after, name));
            assert k <= |segments| ==> segments[1..][k - 1..] == segments[k..];
          }
        }
      }
    }
  }

  lemma LastBelow(pattern: Pattern, name: string, k: nat)
    requires BindsLast(pattern, name, k)
    ensures if k == 0 then BindsNowhere(pattern[1..], name) else BindsLast(pattern[1..], name, k - 1)
  {
    var rest := pattern[1..];
    assert forall j :: 0 <= j < |rest| ==> rest[j] == pattern[j + 1];
  }

  lemma LinearIsCaptured(pattern: Pattern, segments: seq<string>, params: Params)
    requires Linear(pattern, segments, []) == Some(params)
    ensures Captured(pattern, segments, params)
  {
    hide Linear, BindsNowhere, GivesValue;
    LinearCaptures(pattern, segments, [], params, "");
    forall name
      ensures BindsNowhere(pattern, name) ==> Get(params, name).None?
      ensures forall k: nat :: BindsLast(pattern, name, k) ==> GivesValue(pattern[k], segments, k, Get(params, name))
    {
      LinearCaptures(pattern, segments, [], params, name);
    }
  }

  /** `route_pattern_matches`: one pass over the pattern, parameters written on the way. */
  method RoutePatternMatches(
      pattern: RoutePath.RoutePath, path: RoutePath.RoutePath, matching: RoutePath.Matching, before: Params)
    returns (matched: bool, params: Params)
    requires pattern.Path? ==> |pattern.raw| == |pattern.decoded|
    ensures pattern.Invalid? || path.Invalid? ==> !matched
    ensures pattern.Path? && path.Path? ==>
              var r := Linear(StepsOf(pattern.raw, RoutePath.Selected(pattern, matching)),
                              RoutePath.Selected(path, matching), before);
              matched == r.Some? && (matched ==> r == Some(params))
  {
    hide Linear, SetParam, RoutePath.Join;
    params := before;
    if pattern.Invalid? || path.Invalid? {
      return false, params;
    }
    var patternSegments := RoutePath.Selected(pattern, matching);
    var pathSegments := RoutePath.Selected(path, matching);
    ghost var steps := StepsOf(pattern.raw, patternSegments);
    var pathIndex := 0;
    var patternIndex := 0;
    assert steps[0..] == steps && pathSegments[0..] == pathSegments;
    while patternIndex < |pattern.raw|
      invariant patternIndex <= |pattern.raw| && pathIndex <= |pathSegments|
      invariant Linear(steps, pathSegments, before)
                == Linear(steps[patternIndex..], pathSegments[pathIndex..], params)
    {
      var raw := pattern.raw[patternIndex];
      LinearStep(steps, patternIndex, pathSegments, pathIndex, params);
      if raw != "" && raw[0] == '*' {
        var name := raw[1..];
        if name != "" {
          var joined := RoutePath.JoinRouteSegments(pathSegments, pathIndex);
          params := SetParam(params, name, joined);
        }
        return patternIndex + 1 == |pattern.raw|, params;
      }
      if pathIndex >= |pathSegments| {
        return false, params;
      }
      if raw != "" && raw[0] == ':' {
        var name := raw[1..];
        if name != "" {
          params := SetParam(params, name, pathSegments[pathIndex]);
        }
      } else if patternSegments[patternIndex] != pathSegments[pathIndex] {
        return false, params;
      }
      pathIndex, patternIndex := pathIndex + 1, patternIndex + 1;
    }
    LinearEnd(pathSegments[pathIndex..], params);
    assert steps[patternIndex..] == [];
    matched := pathIndex == |pathSegments|;
  }

  lemma LinearEnd(segments: seq<string>, params: Params)
    ensures Linear([], segments, params) == if segments == [] then Some(params) else None
  {
  }

  /** One step of the linear matcher, at given positions. */
  lemma LinearStep(steps: Pattern, i: nat, segments: seq<string>, k: nat, params: Params)
    requires i < |steps| && k <= |segments|
    ensures var here, step := Linear(steps[i..], segments[k..], params), steps[i];
            && (step.Wild? ==>
                  here == if i + 1 == |steps| then Some(SetNamed(params, step.name, RoutePath.Join(segments[k..])))
                          else None)
            && (step.Param? ==>
                  here == if k == |segments| then None
                          else Linear(steps[i + 1..], segments[k + 1..], SetNamed(params, step.name, segments[k])))
            && (step.Static? ==>
                  here == if k == |segments| || step.text != segments[k] then None
                          else Linear(steps[i + 1..], segments[k + 1..], params))
  {
    hide SetParam, RoutePath.Join, Matches;
    assert steps[i..][1..] == steps[i + 1..];
    assert k < |segments| ==> segments[k..][1..] == segments[k + 1..];
  }

  /** Priority among patterns that match one path: at the first difference a literal beats a parameter,
      which beats a wildcard; a pattern that ends there beats an empty wildcard. */
  predicate Precedes(p: Pattern, q: Pattern) {
    if p == [] then q != []
    else if q == [] then false
    else if p[0] == q[0] then Precedes(p[1..], q[1..])
    else Rank(p[0]) < Rank(q[0])
  }

  function Rank(step: Step): nat {
    match step
    case Static(_) => 0
    case Param(_) => 1
    case Wild(_) => 2
  }

  lemma {:induction false} PrecedesIsStrict(p: Pattern, q: Pattern)
    requires Precedes(p, q)
    ensures p != q && !Precedes(q, p)
  {
    if p != [] && p[0] == q[0] {
      PrecedesIsStrict(p[1..], q[1..]);
    }
  }

  // ---------------------------------------------------------------- nodes

  function Next(node: Node, step: Step): Option<nat> {
    match step
    case Static(text) => if text in node.statics then Some(node.statics[text]) else None
    case Param(name) =>
      if node.parameter.Some? && node.parameter.value.name == name then Some(node.parameter.value.node) else None
    case Wild(name) =>
      if node.wildcard.Some? && node.wildcard.value.name == name then Some(node.wildcard.value.node) else None
  }

  /** Every child has a larger index than its parent. */
  ghost predicate Ordered(nodes: seq<Node>) {
    forall i, step {:trigger Next(nodes[i], step)} :: 0 <= i < |nodes| && Next(nodes[i], step).Some? ==>
                        i < Next(nodes[i], step).value < |nodes|
  }

  /** Parameters and wildcards are named, and a wildcard node has no children. */
  ghost predicate Tidy(nodes: seq<Node>) {
    forall i, step {:trigger Next(nodes[i], step)} :: 0 <= i < |nodes| && Next(nodes[i], step).Some? ==>
                        && (step.Static? || step.name != "")
                        && (step.Wild? ==> Leaf(nodes, Next(nodes[i], step).value))
  }

  ghost predicate Leaf(nodes: seq<Node>, i: nat) {
    i < |nodes| && forall step :: Next(nodes[i], step).None?
  }

  /** The node a pattern leads to from node `i`. */
  function Walk(nodes: seq<Node>, i: nat, pattern: Pattern): (r: Option<nat>)
    requires i < |nodes|
    ensures r.Some? ==> i <= r.value < |nodes|
    decreases |nodes| - i
  {
    if pattern == [] then Some(i)
    else match Next(nodes[i], pattern[0])
         case None => None
         case Some(j) => if i < j < |nodes| then Walk(nodes, j, pattern[1..]) else None
  }

  /** What is stored under a pattern; nothing when no node is there. */
  function DataAt(nodes: seq<Node>, i: nat, pattern: Pattern): NodeData
    requires i < |nodes|
  {
    match Walk(nodes, i, pattern)
    case Some(n) => nodes[n].data
    case None => EMPTY_DATA
  }

  /** A target for the method is registered under the pattern. */
  predicate IsRoute(nodes: seq<Node>, i: nat, verb: nat, pattern: Pattern)
    requires i < |nodes|
  {
    verb in DataAt(nodes, i, pattern).targets
  }

  // ---------------------------------------------------------------- matching

  /** What a match collects besides parameters. */
  datatype Hooks = Hooks(
    onRequest: seq<Hook>,
    preHandler: seq<Hook>,
    onResponse: seq<Hook>,
    exceptionHandler: Option<Hook>)

  function Enter(hooks: Hooks, data: NodeData): Hooks {
    Hooks(hooks.onRequest + data.onRequest,
          hooks.preHandler + data.preHandler,
          hooks.onResponse + data.onResponse,
          if data.exceptionHandler.Some? then data.exceptionHandler else hooks.exceptionHandler)
  }

  datatype Match = Match(target: Target, params: Params, hooks: Hooks)

  function MatchWildcard(
      nodes: seq<Node>, i: nat, verb: nat, segments: seq<string>, params: Params, hooks: Hooks): Option<Match>
    requires Ordered(nodes) && i < |nodes|
  {
    if nodes[i].wildcard.None? then None
    else
      var Child(name, j) := nodes[i].wildcard.value;
      assert Next(nodes[i], Wild(name)) == Some(j);
      var data := nodes[j].data;
      if verb !in data.targets then None
      else Some(Match(data.targets[verb], SetNamed(params, name, RoutePath.Join(segments)), Enter(hooks, data)))
  }

  /** `match_node`: static child, then parameter child, then wildcard, each tried on copies. */
  function MatchNode(
      nodes: seq<Node>, i: nat, verb: nat, segments: seq<string>, params: Params, hooks: Hooks): Option<Match>
    requires Ordered(nodes) && i < |nodes|
    decreases |nodes| - i
  {
    var node := nodes[i];
    var here := Enter(hooks, node.data);
    if segments == [] then
      if verb in node.data.targets then Some(Match(node.data.targets[verb], params, here))
      else MatchWildcard(nodes, i, verb, segments, params, here)
    else
      var viaStatic :=
        match Next(node, Static(segments[0]))
        case Some(j) => MatchNode(nodes, j, verb, segments[1..], params, here)
        case None => None;
      if viaStatic.Some? then viaStatic
      else
        var viaParameter :=
          if node.parameter.None? then None
          else
            var Child(name, j) := node.parameter.value;
            assert Next(node, Param(name)) == Some(j);
            MatchNode(nodes, j, verb, segments[1..], SetParam(params, name, segments[0]), here);
        if viaParameter.Some? then viaParameter
        else MatchWildcard(nodes, i, verb, segments, params, here)
  }

  /** The hooks of the nodes from node `i` to the end of the pattern, in order. */
  function Along(nodes: seq<Node>, i: nat, pattern: Pattern, hooks: Hooks): Hooks
    requires i < |nodes| && Walk(nodes, i, pattern).Some?
    decreases |nodes| - i
  {
    var here := Enter(hooks, nodes[i].data);
    if pattern == [] then here
    else Along(nodes, Next(nodes[i], pattern[0]).value, pattern[1..], here)
  }

  /** `p` is the registered pattern that a linear scan with the priority rule picks. */
  ghost predicate Best(nodes: seq<Node>, i: nat, verb: nat, segments: seq<string>, p: Pattern)
    requires i < |nodes|
  {
    && IsRoute(nodes, i, verb, p) && Matches(p, segments)
    && forall q: Pattern :: IsRoute(nodes, i, verb, q) && Matches(q, segments) ==> q == p || Precedes(p, q)
  }

  ghost predicate NoneMatches(nodes: seq<Node>, i: nat, verb: nat, segments: seq<string>)
    requires i < |nodes|
  {
    forall q: Pattern :: IsRoute(nodes, i, verb, q) ==> !Matches(q, segments)
  }

  /** What the match found is what the linear matcher and the root-to-target walk give for `p`. */
  ghost predicate Agrees(nodes: seq<Node>, i: nat, verb: nat, segments: seq<string>,
                         params: Params, hooks: Hooks, p: Pattern, found: Match)
    requires i < |nodes|
  {
    && IsRoute(nodes, i, verb, p)
    && found.target == DataAt(nodes, i, p).targets[verb]
    && Linear(p, segments, params) == Some(found.params)
    && Walk(nodes, i, p).Some?
    && found.hooks == Along(nodes, i, p, hooks)
  }

  lemma RouteUnfold(nodes: seq<Node>, i: nat, verb: nat, q: Pattern)
    requires Ordered(nodes) && i < |nodes| && q != []
    ensures IsRoute(nodes, i, verb, q) <==>
            Next(nodes[i], q[0]).Some? && IsRoute(nodes, Next(nodes[i], q[0]).value, verb, q[1..])
    ensures Next(nodes[i], q[0]).Some? ==>
              DataAt(nodes, i, q) == DataAt(nodes, Next(nodes[i], q[0]).value, q[1..])
              && Walk(nodes, i, q) == Walk(nodes, Next(nodes[i], q[0]).value, q[1..])
  {
  }

  /** Below a leaf there is nothing. */
  lemma LeafRoute(nodes: seq<Node>, i: nat, verb: nat, q: Pattern)
    requires Leaf(nodes, i)
    ensures IsRoute(nodes, i, verb, q) <==> q == [] && verb in nodes[i].data.targets
  {
  }

  lemma WildcardFinds(nodes: seq<Node>, i: nat, verb: nat, segments: seq<string>, params: Params, hooks: Hooks)
    returns (p: Pattern)
    requires Ordered(nodes) && Tidy(nodes) && i < |nodes|
    ensures match MatchWildcard(nodes, i, verb, segments, params, Enter(hooks, nodes[i].data))
            case None => forall q: Pattern :: IsRoute(nodes, i, verb, q) && q != [] ==> !q[0].Wild?
            case Some(found) =>
              && |p| == 1 && p[0].Wild?
              && Agrees(nodes, i, verb, segments, params, hooks, p, found)
              && forall q: Pattern :: IsRoute(nodes, i, verb, q) && q != [] && q[0].Wild? ==> q == p
  {
    hide Linear, Matches, IsRoute, Walk;
    p := [];
    if nodes[i].wildcard.Some? {
      var Child(name, j) := nodes[i].wildcard.value;
      assert Next(nodes[i], Wild(name)) == Some(j);
      p := [Wild(name)];
      RouteUnfold(nodes, i, verb, p);
      assert p[1..] == [];
      LeafRoute(nodes, j, verb, []);
      WildOnly(nodes, i, verb, segments, params, hooks, name, j);
    }
    forall q: Pattern | IsRoute(nodes, i, verb, q) && q != [] && q[0].Wild?
      ensures nodes[i].wildcard.Some? && q == p
      ensures verb in nodes[nodes[i].wildcard.value.node].data.targets
    {
      RouteUnfold(nodes, i, verb, q);
      var j := Next(nodes[i], q[0]).value;
      LeafRoute(nodes, j, verb, q[1..]);
      assert q == [q[0]] + q[1..];
    }
  }

  lemma WildOnly(nodes: seq<Node>, i: nat, verb: nat, segments: seq<string>, params: Params, hooks: Hooks,
                 name: string, j: nat)
    requires i < j < |nodes| && Next(nodes[i], Wild(name)) == Some(j)
    ensures Walk(nodes, i, [Wild(name)]) == Some(j)
    ensures Linear([Wild(name)], segments, params) == Some(SetNamed(params, name, RoutePath.Join(segments)))
    ensures Along(nodes, i, [Wild(name)], hooks) == Enter(Enter(hooks, nodes[i].data), nodes[j].data)
  {
    var p := [Wild(name)];
    assert p[1..] == [];
  }

  /** A child's answer extended by the step that leads to it. */
  lemma AgreesUp(nodes: seq<Node>, i: nat, verb: nat, segments: seq<string>, params: Params, hooks: Hooks,
                 step: Step, p: Pattern, found: Match)
    requires Ordered(nodes) && i < |nodes| && segments != [] && Next(nodes[i], step).Some?
    requires match step
             case Static(text) => text == segments[0]
             case Param(name) => name != ""
             case Wild(_) => false
    requires Agrees(nodes, Next(nodes[i], step).value, verb, segments[1..],
                    if step.Param? then SetParam(params, step.name, segments[0]) else params,
                    Enter(hooks, nodes[i].data), p, found)
    ensures Agrees(nodes, i, verb, segments, params, hooks, [step] + p, found)
    ensures Matches([step] + p, segments)
  {
    assert ([step] + p)[1..] == p;
    RouteUnfold(nodes, i, verb, [step] + p);
  }

  /** How a registered pattern that matches can start. */
  lemma FirstStep(nodes: seq<Node>, i: nat, verb: nat, segments: seq<string>, q: Pattern)
    requires Ordered(nodes) && i < |nodes|
    requires IsRoute(nodes, i, verb, q) && Matches(q, segments)
    ensures q == [] ==> segments == [] && verb in nodes[i].data.targets
    ensures q != [] && !q[0].Wild? ==>
              && segments != [] && (q[0].Static? ==> q[0] == Static(segments[0]))
              && Next(nodes[i], q[0]).Some?
              && IsRoute(nodes, Next(nodes[i], q[0]).value, verb, q[1..])
              && Matches(q[1..], segments[1..])
  {
  }

  lemma BestVia(nodes: seq<Node>, i: nat, verb: nat, segments: seq<string>, step: Step, p: Pattern)
    requires Ordered(nodes) && i < |nodes| && segments != [] && !step.Wild?
    requires step.Static? ==> step.text == segments[0]
    requires Next(nodes[i], step).Some?
    requires Best(nodes, Next(nodes[i], step).value, verb, segments[1..], p)
    requires step.Param? ==>
               forall q: Pattern :: IsRoute(nodes, i, verb, q) && q != [] && q[0] == Static(segments[0]) ==>
                             !Matches(q, segments)
    ensures Best(nodes, i, verb, segments, [step] + p)
  {
    hide IsRoute, Matches;
    var whole := [step] + p;
    assert whole[1..] == p;
    RouteUnfold(nodes, i, verb, whole);
    MatchesUp(step, p, segments);
    forall q: Pattern | IsRoute(nodes, i, verb, q) && Matches(q, segments)
      ensures q == whole || Precedes(whole, q)
    {
      FirstStep(nodes, i, verb, segments, q);
      assert q != [] ==> q == [q[0]] + q[1..];
    }
  }

  lemma MatchesUp(step: Step, p: Pattern, segments: seq<string>)
    requires segments != [] && !step.Wild? && (step.Static? ==> step.text == segments[0])
    ensures Matches([step] + p, segments) == Matches(p, segments[1..])
  {
    assert ([step] + p)[1..] == p;
  }

  /** When no pattern through `step` matches. */
  lemma NoneVia(nodes: seq<Node>, i: nat, verb: nat, segments: seq<string>, step: Step)
    requires Ordered(nodes) && i < |nodes| && segments != [] && !step.Wild?
    requires Next(nodes[i], step).Some? ==>
               NoneMatches(nodes, Next(nodes[i], step).value, verb, segments[1..])
    ensures forall q: Pattern :: IsRoute(nodes, i, verb, q) && q != [] && q[0] == step ==> !Matches(q, segments)
  {
    hide IsRoute, Matches;
    forall q: Pattern | IsRoute(nodes, i, verb, q) && q != [] && q[0] == step
      ensures !Matches(q, segments)
    {
      if Matches(q, segments) {
        FirstStep(nodes, i, verb, segments, q);
      }
    }
  }

  /** The trie agrees with the linear scan: it finds nothing exactly when no registered pattern
      matches, and otherwise the priority-least one, with the linear matcher's parameters and exactly
      the hooks of the nodes on the way to it. */
  lemma {:induction false} MatchNodeIsLinearScan(
      nodes: seq<Node>, i: nat, verb: nat, segments: seq<string>, params: Params, hooks: Hooks)
    returns (p: Pattern)
    requires Ordered(nodes) && Tidy(nodes) && i < |nodes|
    ensures match MatchNode(nodes, i, verb, segments, params, hooks)
            case None => NoneMatches(nodes, i, verb, segments)
            case Some(found) =>
              && Best(nodes, i, verb, segments, p)
              && Agrees(nodes, i, verb, segments, params, hooks, p, found)
    decreases |nodes| - i
  {
    hide IsRoute, Matches, Linear, MatchWildcard, Along, Precedes;
    if segments == [] {
      p := EndFinds(nodes, i, verb, params, hooks);
      return;
    }
    var here := Enter(hooks, nodes[i].data);
    var literal := Static(segments[0]);
    var viaStatic := Next(nodes[i], literal);
    if viaStatic.Some? {
      var p0 := MatchNodeIsLinearScan(nodes, viaStatic.value, verb, segments[1..], params, here);
      var found := MatchNode(nodes, viaStatic.value, verb, segments[1..], params, here);
      if found.Some? {
        p := [literal] + p0;
        AgreesUp(nodes, i, verb, segments, params, hooks, literal, p0, found.value);
        BestVia(nodes, i, verb, segments, literal, p0);
        return;
      }
    }
    NoneVia(nodes, i, verb, segments, literal);
    if nodes[i].parameter.Some? {
      var Child(name, j) := nodes[i].parameter.value;
      var step := Param(name);
      assert Next(nodes[i], step) == Some(j);
      var bound := SetParam(params, name, segments[0]);
      var p1 := MatchNodeIsLinearScan(nodes, j, verb, segments[1..], bound, here);
      var found := MatchNode(nodes, j, verb, segments[1..], bound, here);
      if found.Some? {
        p := [step] + p1;
        AgreesUp(nodes, i, verb, segments, params, hooks, step, p1, found.value);
        BestVia(nodes, i, verb, segments, step, p1);
        return;
      }
      NoneVia(nodes, i, verb, segments, step);
    }
    p := OnlyWildcardLeft(nodes, i, verb, segments, params, hooks);
  }

  lemma EndFinds(nodes: seq<Node>, i: nat, verb: nat, params: Params, hooks: Hooks) returns (p: Pattern)
    requires Ordered(nodes) && Tidy(nodes) && i < |nodes|
    ensures match MatchNode(nodes, i, verb, [], params, hooks)
            case None => NoneMatches(nodes, i, verb, [])
            case Some(found) =>
              && Best(nodes, i, verb, [], p)
              && Agrees(nodes, i, verb, [], params, hooks, p, found)
  {
    hide MatchWildcard;
    if verb in nodes[i].data.targets {
      p := [];
    } else {
      p := WildcardFinds(nodes, i, verb, [], params, hooks);
      forall q: Pattern | IsRoute(nodes, i, verb, q) && Matches(q, [])
        ensures q != [] && q[0].Wild?
      {
        FirstStep(nodes, i, verb, [], q);
      }
    }
  }

  lemma OnlyWildcardLeft(
      nodes: seq<Node>, i: nat, verb: nat, segments: seq<string>, params: Params, hooks: Hooks)
    returns (p: Pattern)
    requires Ordered(nodes) && Tidy(nodes) && i < |nodes| && segments != []
    requires forall q: Pattern :: IsRoute(nodes, i, verb, q) && q != [] && q[0] == Static(segments[0]) ==>
                           !Matches(q, segments)
    requires nodes[i].parameter.Some? ==>
               forall q: Pattern ::
                 IsRoute(nodes, i, verb, q) && q != [] && q[0] == Param(nodes[i].parameter.value.name) ==>
                   !Matches(q, segments)
    ensures match MatchWildcard(nodes, i, verb, segments, params, Enter(hooks, nodes[i].data))
            case None => NoneMatches(nodes, i, verb, segments)
            case Some(found) =>
              && Best(nodes, i, verb, segments, p)
              && Agrees(nodes, i, verb, segments, params, hooks, p, found)
  {
    hide MatchWildcard, IsRoute, Matches;
    p := WildcardFinds(nodes, i, verb, segments, params, hooks);
    forall q: Pattern | IsRoute(nodes, i, verb, q) && Matches(q, segments)
      ensures q != [] && q[0].Wild?
    {
      FirstStep(nodes, i, verb, segments, q);
    }
  }

  // ---------------------------------------------------------------- what a match depends on

  const NO_HOOKS := Hooks([], [], [], None)

  /** The hooks stored under the first `k` steps of a pattern and all shorter prefixes, root first. */
  function Collected(nodes: seq<Node>, p: Pattern, k: nat): Hooks
    requires nodes != [] && k <= |p|
  {
    Enter(if k == 0 then NO_HOOKS else Collected(nodes, p, k - 1), DataAt(nodes, 0, p[..k]))
  }

  lemma {:induction false} AlongSnoc(nodes: seq<Node>, i: nat, p: Pattern, step: Step, hooks: Hooks)
    requires i < |nodes| && Walk(nodes, i, p + [step]).Some?
    ensures Walk(nodes, i, p).Some?
    ensures Along(nodes, i, p + [step], hooks)
            == Enter(Along(nodes, i, p, hooks), DataAt(nodes, i, p + [step]))
    decreases |nodes| - i
  {
    var whole := p + [step];
    var j := Next(nodes[i], whole[0]).value;
    if p == [] {
      assert whole[1..] == [];
    } else {
      assert whole[1..] == p[1..] + [step];
      AlongSnoc(nodes, j, p[1..], step, Enter(hooks, nodes[i].data));
    }
  }

  /** The hooks of a match are those stored under the prefixes of the chosen pattern. */
  lemma {:induction false} AlongIsCollected(nodes: seq<Node>, p: Pattern, k: nat)
    requires nodes != [] && k <= |p| && Walk(nodes, 0, p[..k]).Some?
    ensures Along(nodes, 0, p[..k], NO_HOOKS) == Collected(nodes, p, k)
  {
    if k == 0 {
      assert p[..0] == [];
    } else {
      assert p[..k] == p[..k - 1] + [p[k - 1]];
      AlongSnoc(nodes, 0, p[..k - 1], p[k - 1], NO_HOOKS);
      AlongIsCollected(nodes, p, k - 1);
    }
  }

  lemma {:induction false} CollectedSame(nodes: seq<Node>, others: seq<Node>, p: Pattern, k: nat)
    requires nodes != [] && others != [] && k <= |p|
    requires forall q :: DataAt(nodes, 0, q) == DataAt(others, 0, q)
    ensures Collected(nodes, p, k) == Collected(others, p, k)
  {
    if k > 0 {
      CollectedSame(nodes, others, p, k - 1);
    }
  }

  lemma BestIsUnique(nodes: seq<Node>, i: nat, verb: nat, segments: seq<string>, p: Pattern, q: Pattern)
    requires i < |nodes| && Best(nodes, i, verb, segments, p) && Best(nodes, i, verb, segments, q)
    ensures p == q
  {
    hide IsRoute, Matches, Precedes;
    if p != q {
      PrecedesIsStrict(p, q);
    }
  }

  /** Two tries that store the same data under every pattern give every request the same match, so
      empty nodes left behind by a refused registration or mount cannot be observed. */
  lemma SameDataSameMatch(nodes: seq<Node>, others: seq<Node>, verb: nat, segments: seq<string>)
    requires Ordered(nodes) && Tidy(nodes) && nodes != []
    requires Ordered(others) && Tidy(others) && others != []
    requires forall q :: DataAt(nodes, 0, q) == DataAt(others, 0, q)
    ensures MatchNode(nodes, 0, verb, segments, [], NO_HOOKS) == MatchNode(others, 0, verb, segments, [], NO_HOOKS)
  {
    hide MatchNode, Matches, Linear, Precedes, Along, DataAt;
    var p := MatchNodeIsLinearScan(nodes, 0, verb, segments, [], NO_HOOKS);
    var q := MatchNodeIsLinearScan(others, 0, verb, segments, [], NO_HOOKS);
    assert forall r: Pattern :: IsRoute(nodes, 0, verb, r) == IsRoute(others, 0, verb, r);
    var here := MatchNode(nodes, 0, verb, segments, [], NO_HOOKS);
    var there := MatchNode(others, 0, verb, segments, [], NO_HOOKS);
    if here.Some? && there.Some? {
      assert Best(others, 0, verb, segments, p);
      BestIsUnique(others, 0, verb, segments, p, q);
      assert p[..|p|] == p;
      AlongIsCollected(nodes, p, |p|);
      AlongIsCollected(others, p, |p|);
      CollectedSame(nodes, others, p, |p|);
    }
  }
}
