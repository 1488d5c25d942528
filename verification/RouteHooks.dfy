/** Which hooks run for a matched route, and in what order: those stored under the prefixes of its pattern,
    root first, in the order they were attached, each in its own list. */
module RouteHooks {
  import opened Text
  import opened Trie
  import opened TrieEdit
  import opened Router

  datatype Kind = Requests | Handlers | Responses

  function Stored(data: NodeData, kind: Kind): seq<Hook> {
    match kind
    case Requests => data.onRequest
    case Handlers => data.preHandler
    case Responses => data.onResponse
  }

  function Gathered(hooks: Hooks, kind: Kind): seq<Hook> {
    match kind
    case Requests => hooks.onRequest
    case Handlers => hooks.preHandler
    case Responses => hooks.onResponse
  }

  /** What hangs at the prefixes of `p` with lengths from `from` up to, and without, `to`, shortest first. */
  function Hung(nodes: seq<Node>, p: Pattern, from: nat, to: nat, kind: Kind): seq<Hook>
    requires nodes != [] && from <= to <= |p| + 1
    decreases |p| + 1 - from
  {
    if from == to then [] else Stored(DataAt(nodes, 0, p[..from]), kind) + Hung(nodes, p, from + 1, to, kind)
  }

  lemma {:induction false} HungSplit(nodes: seq<Node>, p: Pattern, from: nat, middle: nat, to: nat, kind: Kind)
    requires nodes != [] && from <= middle <= to <= |p| + 1
    ensures Hung(nodes, p, from, to, kind) == Hung(nodes, p, from, middle, kind) + Hung(nodes, p, middle, to, kind)
    decreases |p| + 1 - from
  {
    hide DataAt;
    if from < middle {
      HungSplit(nodes, p, from + 1, middle, to, kind);
    }
  }

  lemma HungOne(nodes: seq<Node>, p: Pattern, k: nat, kind: Kind)
    requires nodes != [] && k <= |p|
    ensures Hung(nodes, p, k, k + 1, kind) == Stored(DataAt(nodes, 0, p[..k]), kind)
  {
    hide DataAt;
    assert Hung(nodes, p, k + 1, k + 1, kind) == [];
  }

  /** Each list of a match is what hangs along the whole pattern, root first. */
  lemma {:induction false} HooksInOrder(nodes: seq<Node>, p: Pattern, k: nat, kind: Kind)
    requires nodes != [] && k <= |p|
    ensures Gathered(Collected(nodes, p, k), kind) == Hung(nodes, p, 0, k + 1, kind)
  {
    hide DataAt, Hung;
    HungOne(nodes, p, k, kind);
    if k == 0 {
    } else {
      HooksInOrder(nodes, p, k - 1, kind);
      HungSplit(nodes, p, 0, k, k + 1, kind);
    }
  }

  /** The exception handler of a match is the one stored nearest to the route, if any is. */
  lemma {:induction false} NearestHandler(nodes: seq<Node>, p: Pattern, k: nat, i: nat)
    requires nodes != [] && i <= k <= |p|
    requires forall j :: i < j <= k ==> DataAt(nodes, 0, p[..j]).exceptionHandler.None?
    ensures DataAt(nodes, 0, p[..i]).exceptionHandler.Some? ==>
              Collected(nodes, p, k).exceptionHandler == DataAt(nodes, 0, p[..i]).exceptionHandler
    ensures i == 0 && DataAt(nodes, 0, p[..0]).exceptionHandler.None? ==> Collected(nodes, p, k).exceptionHandler.None?
  {
    hide DataAt;
    if i < k {
      NearestHandler(nodes, p, k - 1, i);
    }
  }

  // ---------------------------------------------------------------- attaching

  /** `after` is `before` with one hook or handler attached under `steps`. */
  ghost predicate Attached(before: seq<Node>, after: seq<Node>, steps: Pattern, a: Attachment) {
    && before != [] && after != []
    && forall q :: DataAt(after, 0, q) ==
         if q == steps then Attach(DataAt(before, 0, q), a) else DataAt(before, 0, q)
  }

  function KindOf(a: Attachment): Option<Kind> {
    match a
    case OnRequest(_) => Some(Requests)
    case PreHandler(_) => Some(Handlers)
    case OnResponse(_) => Some(Responses)
    case _ => None
  }

  lemma {:induction false} HungSame(
      before: seq<Node>, after: seq<Node>, steps: Pattern, a: Attachment, p: Pattern, from: nat, to: nat, kind: Kind)
    requires Attached(before, after, steps, a) && from <= to <= |p| + 1
    requires KindOf(a) != Some(kind) || forall i :: from <= i < to ==> p[..i] != steps
    ensures Hung(after, p, from, to, kind) == Hung(before, p, from, to, kind)
    decreases |p| + 1 - from
  {
    hide DataAt;
    if from < to {
      HungSame(before, after, steps, a, p, from + 1, to, kind);
    }
  }

  /** A hook attached under a prefix runs for exactly the routes under it, in the list it was attached to:
      behind everything hung at or above the prefix before, ahead of everything hung further down. */
  lemma HookReaches(
      before: seq<Node>, after: seq<Node>, steps: Pattern, a: Attachment, p: Pattern, kind: Kind)
    requires before != [] && after != [] && Attached(before, after, steps, a)
    ensures var was, now := Collected(before, p, |p|), Collected(after, p, |p|);
            if steps <= p && KindOf(a) == Some(kind) then
              var k := |steps| + 1;
              && Gathered(was, kind) == Hung(before, p, 0, k, kind) + Hung(before, p, k, |p| + 1, kind)
              && Gathered(now, kind) == Hung(before, p, 0, k, kind) + [a.hook] + Hung(before, p, k, |p| + 1, kind)
            else Gathered(now, kind) == Gathered(was, kind)
  {
    hide DataAt, Hung, Collected, Attached, Gathered;
    HooksInOrder(before, p, |p|, kind);
    HooksInOrder(after, p, |p|, kind);
    if steps <= p && KindOf(a) == Some(kind) {
      HookThere(before, after, steps, a, p, kind);
      HungSplit(before, p, 0, |steps| + 1, |p| + 1, kind);
    } else {
      if KindOf(a) == Some(kind) {
        NoPrefix(steps, p);
      }
      HungSame(before, after, steps, a, p, 0, |p| + 1, kind);
    }
  }

  lemma NoPrefix(steps: Pattern, p: Pattern)
    requires !(steps <= p)
    ensures forall i :: 0 <= i < |p| + 1 ==> p[..i] != steps
  {
  }

  lemma HookThere(before: seq<Node>, after: seq<Node>, steps: Pattern, a: Attachment, p: Pattern, kind: Kind)
    requires before != [] && after != [] && Attached(before, after, steps, a)
    requires steps <= p && KindOf(a) == Some(kind)
    ensures var k := |steps| + 1;
            Hung(after, p, 0, |p| + 1, kind)
            == Hung(before, p, 0, k, kind) + [a.hook] + Hung(before, p, k, |p| + 1, kind)
  {
    hide DataAt, Hung;
    var n := |steps|;
    assert p[..n] == steps;
    OtherPrefixes(steps, p);
    HungSplit(before, p, 0, n, n + 1, kind);
    HungSplit(after, p, 0, n, n + 1, kind);
    HungSplit(after, p, 0, n + 1, |p| + 1, kind);
    HungSame(before, after, steps, a, p, 0, n, kind);
    HungSame(before, after, steps, a, p, n + 1, |p| + 1, kind);
    HungOne(before, p, n, kind);
    HungOne(after, p, n, kind);
    var above, here := Hung(before, p, 0, n, kind), Stored(DataAt(before, 0, steps), kind);
    assert Stored(DataAt(after, 0, steps), kind) == here + [a.hook];
    assert above + (here + [a.hook]) == (above + here) + [a.hook];
  }

  lemma OtherPrefixes(steps: Pattern, p: Pattern)
    requires steps <= p
    ensures forall i :: 0 <= i <= |p| && i != |steps| ==> p[..i] != steps
  {
    forall i | 0 <= i <= |p| && i != |steps| ensures p[..i] != steps {
      assert |p[..i]| == i;
    }
  }

  /** A handler attached under a prefix replaces the one that was there and touches nothing else. */
  lemma HandlerReplaces(before: seq<Node>, after: seq<Node>, steps: Pattern, a: Attachment, q: Pattern)
    requires Attached(before, after, steps, a)
    ensures var was, now := DataAt(before, 0, q), DataAt(after, 0, q);
            && now.targets == was.targets
            && now.notFound == (if q == steps && a.NotFound? then Some(a.hook) else was.notFound)
            && now.exceptionHandler == (if q == steps && a.OnException? then Some(a.hook) else was.exceptionHandler)
            && (a.NotFound? || a.OnException? ==> forall kind :: Stored(now, kind) == Stored(was, kind))
  {
    hide DataAt;
  }

  // ---------------------------------------------------------------- mounting

  /** Merging compatible nodes loses nothing: every target and handler of either side is there, and each list
      has the destination's hooks first. */
  lemma MergeLosesNothing(a: Node, b: Node)
    requires Compatible(a, b)
    ensures var merged := MergeData(a.data, b.data);
            && merged.targets.Keys == a.data.targets.Keys + b.data.targets.Keys
            && (forall verb :: verb in a.data.targets ==> merged.targets[verb] == a.data.targets[verb])
            && (forall verb :: verb in b.data.targets ==> merged.targets[verb] == b.data.targets[verb])
            && (a.data.notFound.Some? ==> merged.notFound == a.data.notFound)
            && (b.data.notFound.Some? ==> merged.notFound == b.data.notFound)
            && (a.data.exceptionHandler.Some? ==> merged.exceptionHandler == a.data.exceptionHandler)
            && (b.data.exceptionHandler.Some? ==> merged.exceptionHandler == b.data.exceptionHandler)
            && (merged.notFound.Some? ==> a.data.notFound.Some? || b.data.notFound.Some?)
            && (merged.exceptionHandler.Some? ==> a.data.exceptionHandler.Some? || b.data.exceptionHandler.Some?)
            && (forall kind :: Stored(merged, kind) == Stored(a.data, kind) + Stored(b.data, kind))
  {
    var merged := MergeData(a.data, b.data);
    forall kind ensures Stored(merged, kind) == Stored(a.data, kind) + Stored(b.data, kind) {
      match kind
      case Requests =>
      case Handlers =>
      case Responses =>
    }
  }
}
