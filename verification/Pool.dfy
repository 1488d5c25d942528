/** The idle connection pool: streams kept per origin, oldest first, with a limit and an idle timeout. */
module Pool {
  import opened Text

  /** One stream given back to the pool; `id` counts releases, so a stream released again is a new entry. */
  datatype Entry = Entry(id: nat, origin: string)

  type Queues = map<string, seq<Entry>>

  /** `idle` are the queues, oldest first; `handed` the entries taken again, `closed` those whose stream was
      closed, `released` everything ever given back. */
  datatype Pool = Pool(idle: Queues, handed: seq<Entry>, closed: seq<Entry>, released: seq<Entry>)

  const FRESH := Pool(map[], [], [], [])

  function QueueOf(idle: Queues, origin: string): seq<Entry> {
    if origin in idle then idle[origin] else []
  }

  /** The map with one queue replaced, or erased when it would be empty. */
  function Store(idle: Queues, origin: string, queue: seq<Entry>): Queues {
    if queue == [] then idle - {origin} else idle[origin := queue]
  }

  function Take(p: Pool, origin: string): (Pool, Option<Entry>) {
    var queue := QueueOf(p.idle, origin);
    if queue == [] then (p.(idle := p.idle - {origin}), None)
    else (p.(idle := Store(p.idle, origin, queue[1..]), handed := p.handed + [queue[0]]), Some(queue[0]))
  }

  /** How many of the oldest entries exceed the limit. */
  function Excess(queue: seq<Entry>, max: nat): (n: nat)
    ensures n <= |queue|
  {
    if |queue| <= max then 0 else |queue| - max
  }

  function Release(p: Pool, origin: string, max: nat): Pool {
    var e := Entry(|p.released|, origin);
    var given := p.(released := p.released + [e]);
    if max == 0 then given.(closed := p.closed + [e])
    else
      var queue := QueueOf(p.idle, origin) + [e];
      var n := Excess(queue, max);
      given.(idle := p.idle[origin := queue[n..]], closed := p.closed + queue[..n])
  }

  function Without(queue: seq<Entry>, e: Entry): seq<Entry> {
    if queue == [] then []
    else (if queue[0] == e then [] else [queue[0]]) + Without(queue[1..], e)
  }

  /** The idle timer of an entry fires, which it does only while the entry is idle. */
  function Expire(p: Pool, e: Entry): Pool {
    if e !in QueueOf(p.idle, e.origin) then p
    else p.(idle := Store(p.idle, e.origin, Without(QueueOf(p.idle, e.origin), e)), closed := p.closed + [e])
  }

  function Flat(idle: Queues, order: seq<string>): seq<Entry> {
    if order == [] then [] else QueueOf(idle, order[0]) + Flat(idle, order[1..])
  }

  /** `order` is some order of the keys, each once: hash maps promise no particular one. */
  predicate Enumerates(order: seq<string>, idle: Queues) {
    && (forall i, j :: 0 <= i < j < |order| ==> order[i] != order[j])
    && (forall i :: 0 <= i < |order| ==> order[i] in idle)
    && (forall origin :: origin in idle ==> origin in order)
  }

  function CloseAll(p: Pool, order: seq<string>): Pool {
    p.(idle := map[], closed := p.closed + Flat(p.idle, order))
  }

  datatype Event = TakeOne(origin: string) | GiveBack(origin: string) | TimesOut(entry: Entry) | Shut(order: seq<string>)

  function Handle(p: Pool, e: Event, max: nat): Pool {
    match e
    case TakeOne(origin) => Take(p, origin).0
    case GiveBack(origin) => Release(p, origin, max)
    case TimesOut(entry) => Expire(p, entry)
    case Shut(order) => if Enumerates(order, p.idle) then CloseAll(p, order) else p
  }

  function Run(p: Pool, events: seq<Event>, max: nat): Pool
    decreases |events|
  {
    if events == [] then p else Run(Handle(p, events[0], max), events[1..], max)
  }

  // ---------------------------------------------------------------- what every run keeps

  /** How often an entry is idle, handed out or closed. */
  function Places(p: Pool, e: Entry): nat {
    multiset(QueueOf(p.idle, e.origin))[e] + multiset(p.handed)[e] + multiset(p.closed)[e]
  }

  predicate QueueInv(queue: seq<Entry>, origin: string, max: nat, released: seq<Entry>) {
    && 0 < |queue| <= max
    && (forall i :: 0 <= i < |queue| ==>
          queue[i].origin == origin && queue[i].id < |released| && released[queue[i].id] == queue[i])
    && (forall i, j :: 0 <= i < j < |queue| ==> queue[i].id < queue[j].id)
  }

  predicate IdleInv(p: Pool, max: nat) {
    forall origin :: origin in p.idle ==> QueueInv(p.idle[origin], origin, max, p.released)
  }

  /** Every release is in exactly one place; nothing else is in any place. */
  ghost predicate Inv(p: Pool, max: nat) {
    && IdleInv(p, max)
    && (forall n :: 0 <= n < |p.released| ==> p.released[n].id == n && Places(p, p.released[n]) == 1)
    && (forall e :: Places(p, e) > 0 ==> e in p.released)
  }

  lemma {:induction false} SplitOff(queue: seq<Entry>, n: nat)
    requires n <= |queue|
    ensures multiset(queue) == multiset(queue[..n]) + multiset(queue[n..])
  {
    assert queue == queue[..n] + queue[n..];
  }

  /** Storing a queue changes that queue and no other. */
  lemma {:induction false} StoreAt(idle: Queues, origin: string, queue: seq<Entry>, other: string)
    ensures QueueOf(Store(idle, origin, queue), other) == if other == origin then queue else QueueOf(idle, other)
  {
  }

  /** An operation that moves entries between places and keeps the queues in shape. */
  lemma {:induction false} MovesInv(p: Pool, r: Pool, max: nat)
    requires Inv(p, max) && IdleInv(r, max) && r.released == p.released
    requires forall e :: Places(r, e) == Places(p, e)
    ensures Inv(r, max)
  {
    hide Places, IdleInv;
  }

  /** One queue replaced by one in shape. */
  lemma {:induction false} StoreIdle(p: Pool, r: Pool, origin: string, queue: seq<Entry>, max: nat)
    requires IdleInv(p, max) && r.idle == Store(p.idle, origin, queue) && p.released <= r.released
    requires queue != [] ==> QueueInv(queue, origin, max, r.released)
    ensures IdleInv(r, max)
  {
    hide QueueInv;
    forall o | o in r.idle ensures QueueInv(r.idle[o], o, max, r.released) {
      if o != origin {
        assert QueueInv(p.idle[o], o, max, p.released);
        MoreReleased(p.idle[o], o, max, p.released, r.released);
      }
    }
  }

  lemma {:induction false} MoreReleased(queue: seq<Entry>, origin: string, max: nat, a: seq<Entry>, b: seq<Entry>)
    requires QueueInv(queue, origin, max, a) && a <= b
    ensures QueueInv(queue, origin, max, b)
  {
  }

  /** Part of a queue in shape is in shape. */
  lemma {:induction false} DropInv(queue: seq<Entry>, n: nat, origin: string, max: nat, released: seq<Entry>)
    requires QueueInv(queue, origin, |queue|, released) && n < |queue| <= max + n
    ensures QueueInv(queue[n..], origin, max, released)
  {
  }

  lemma {:induction false} TakePlaces(p: Pool, origin: string, e: Entry, max: nat)
    requires IdleInv(p, max)
    ensures Places(Take(p, origin).0, e) == Places(p, e)
  {
    hide QueueInv;
    var queue := QueueOf(p.idle, origin);
    if queue != [] {
      SplitOff(queue, 1);
      assert queue[..1] == [queue[0]];
      StoreAt(p.idle, origin, queue[1..], e.origin);
      OnlyHere(p, queue, origin, e, max);
    }
  }

  lemma {:induction false} TakeInv(p: Pool, origin: string, max: nat)
    requires Inv(p, max)
    ensures Inv(Take(p, origin).0, max)
  {
    hide Places, QueueInv, Store;
    var queue, r := QueueOf(p.idle, origin), Take(p, origin).0;
    forall e ensures Places(r, e) == Places(p, e) {
      TakePlaces(p, origin, e, max);
    }
    if queue == [] {
      StoreNothing(p.idle, origin);
      StoreIdle(p, r, origin, [], max);
    } else {
      QueueRest(queue, origin, max, p.released);
      StoreIdle(p, r, origin, queue[1..], max);
    }
    MovesInv(p, r, max);
  }

  lemma {:induction false} StoreNothing(idle: Queues, origin: string)
    ensures Store(idle, origin, []) == idle - {origin}
  {
  }

  lemma {:induction false} QueueRest(queue: seq<Entry>, origin: string, max: nat, released: seq<Entry>)
    requires QueueInv(queue, origin, max, released)
    ensures queue[1..] != [] ==> QueueInv(queue[1..], origin, max, released)
  {
  }

  /** Entries of one queue are of no other origin. */
  lemma {:induction false} OnlyHere(p: Pool, queue: seq<Entry>, origin: string, e: Entry, max: nat)
    requires IdleInv(p, max) && queue == QueueOf(p.idle, origin)
    ensures e.origin != origin ==> e !in queue
  {
  }

  /** A queue with one more entry, cut in two. */
  lemma {:induction false} CutCount(before: seq<Entry>, e: Entry, n: nat, x: Entry)
    requires n <= |before| + 1
    ensures var queue := before + [e];
            multiset(queue[..n])[x] + multiset(queue[n..])[x] == multiset(before)[x] + if x == e then 1 else 0
    ensures x !in before && x != e ==> multiset((before + [e])[..n])[x] == 0
  {
    var queue := before + [e];
    SplitOff(queue, n);
    assert multiset(queue)[x] == multiset(before)[x] + if x == e then 1 else 0;
    if x !in before && x != e {
      assert x !in queue[..n];
      assert x !in multiset(queue[..n]);
    }
  }

  lemma {:induction false} ReleasePlaces(p: Pool, origin: string, x: Entry, max: nat)
    requires IdleInv(p, max)
    ensures Places(Release(p, origin, max), x) == Places(p, x) + if x == Entry(|p.released|, origin) then 1 else 0
  {
    var e := Entry(|p.released|, origin);
    var before := QueueOf(p.idle, origin);
    OnlyHere(p, before, origin, x, max);
    hide QueueInv, IdleInv;
    var queue, n := before + [e], Excess(before + [e], max);
    CutCount(before, e, n, x);
    if max == 0 {
      assert multiset(p.closed + [e])[x] == multiset(p.closed)[x] + if x == e then 1 else 0;
    } else {
      assert multiset(p.closed + queue[..n])[x] == multiset(p.closed)[x] + multiset(queue[..n])[x];
      assert QueueOf(p.idle[origin := queue[n..]], x.origin) ==
             if x.origin == origin then queue[n..] else QueueOf(p.idle, x.origin);
    }
  }

  lemma {:induction false} LongerQueue(p: Pool, origin: string, max: nat)
    requires IdleInv(p, max) && max > 0
    ensures var e := Entry(|p.released|, origin);
            var queue := QueueOf(p.idle, origin) + [e];
            QueueInv(queue[Excess(queue, max)..], origin, max, p.released + [e])
  {
    var e, released := Entry(|p.released|, origin), p.released + [Entry(|p.released|, origin)];
    var before := QueueOf(p.idle, origin);
    var queue := before + [e];
    if before != [] {
      assert QueueInv(before, origin, max, p.released);
      MoreReleased(before, origin, max, p.released, released);
    }
    assert QueueInv(queue, origin, |queue|, released);
    hide QueueInv;
    DropInv(queue, Excess(queue, max), origin, max, released);
  }

  lemma {:induction false} ReleaseInv(p: Pool, origin: string, max: nat)
    requires Inv(p, max)
    ensures Inv(Release(p, origin, max), max)
  {
    hide Places, QueueInv;
    var e, r := Entry(|p.released|, origin), Release(p, origin, max);
    forall x ensures Places(r, x) == Places(p, x) + if x == e then 1 else 0 {
      ReleasePlaces(p, origin, x, max);
    }
    ReleasedOnce(p, e, r, max);
    if max > 0 {
      var queue := QueueOf(p.idle, origin) + [e];
      LongerQueue(p, origin, max);
      StoreIdle(p, r, origin, queue[Excess(queue, max)..], max);
    } else {
      StoreIdle(p, r.(idle := Store(p.idle, origin, [])), origin, [], max);
      NoneKept(p);
    }
  }

  lemma {:induction false} NoneKept(p: Pool)
    requires IdleInv(p, 0)
    ensures p.idle == map[]
  {
  }

  /** A fresh entry was in no place before. */
  lemma {:induction false} ReleasedOnce(p: Pool, e: Entry, r: Pool, max: nat)
    requires Inv(p, max) && e.id == |p.released| && r.released == p.released + [e]
    requires forall x :: Places(r, x) == Places(p, x) + if x == e then 1 else 0
    ensures forall n :: 0 <= n < |r.released| ==> r.released[n].id == n && Places(r, r.released[n]) == 1
    ensures forall x :: Places(r, x) > 0 ==> x in r.released
  {
    hide Places, IdleInv;
    assert e !in p.released;
    forall x | Places(r, x) > 0 ensures x in r.released {
      if x != e {
        assert x in p.released;
      } else {
        assert r.released[|p.released|] == e;
      }
    }
  }

  lemma {:induction false} WithoutCount(queue: seq<Entry>, e: Entry, x: Entry)
    ensures multiset(Without(queue, e))[x] == if x == e then 0 else multiset(queue)[x]
  {
    if queue != [] {
      WithoutCount(queue[1..], e, x);
      SplitOff(queue, 1);
      assert queue[..1] == [queue[0]];
    }
  }

  /** Removing an entry keeps the others in order. */
  lemma {:induction false} WithoutInv(queue: seq<Entry>, e: Entry, origin: string, max: nat, released: seq<Entry>)
    requires queue != [] ==> QueueInv(queue, origin, max, released)
    ensures Without(queue, e) != [] ==> QueueInv(Without(queue, e), origin, max, released)
    ensures |Without(queue, e)| <= |queue|
    ensures forall i :: 0 <= i < |Without(queue, e)| ==> Without(queue, e)[i] in queue
  {
    if queue != [] {
      WithoutInv(queue[1..], e, origin, max, released);
    }
  }

  lemma {:induction false} ExpirePlaces(p: Pool, e: Entry, x: Entry, max: nat)
    requires IdleInv(p, max)
    ensures Places(Expire(p, e), x) == Places(p, x)
  {
    hide QueueInv;
    var queue := QueueOf(p.idle, e.origin);
    if e in queue {
      assert QueueInv(p.idle[e.origin], e.origin, max, p.released);
      IdleOnce(queue, e, e.origin, max, p.released);
      StoreAt(p.idle, e.origin, Without(queue, e), x.origin);
      WithoutCount(queue, e, x);
    }
  }

  lemma {:induction false} ExpireInv(p: Pool, e: Entry, max: nat)
    requires Inv(p, max)
    ensures Inv(Expire(p, e), max)
  {
    hide Places, QueueInv, Store, Without;
    var queue, r := QueueOf(p.idle, e.origin), Expire(p, e);
    if e in queue {
      forall x ensures Places(r, x) == Places(p, x) {
        ExpirePlaces(p, e, x, max);
      }
      WithoutInv(queue, e, e.origin, max, p.released);
      StoreIdle(p, r, e.origin, Without(queue, e), max);
      MovesInv(p, r, max);
    }
  }

  lemma {:induction false} IdleOnce(queue: seq<Entry>, e: Entry, origin: string, max: nat, released: seq<Entry>)
    requires QueueInv(queue, origin, max, released) && e in queue
    ensures multiset(queue)[e] == 1
  {
    var i :| 0 <= i < |queue| && queue[i] == e;
    assert queue == queue[..i] + [e] + queue[i + 1..];
    assert e !in queue[..i] && e !in queue[i + 1..];
  }

  /** Every idle entry appears in the flattened queues as often as in its own queue. */
  lemma {:induction false} FlatCount(idle: Queues, order: seq<string>, e: Entry)
    requires forall i, j :: 0 <= i < j < |order| ==> order[i] != order[j]
    requires forall origin :: origin in idle ==> forall i :: 0 <= i < |idle[origin]| ==> idle[origin][i].origin == origin
    ensures multiset(Flat(idle, order))[e] == if e.origin in order then multiset(QueueOf(idle, e.origin))[e] else 0
  {
    if order != [] {
      FlatCount(idle, order[1..], e);
      assert order == [order[0]] + order[1..];
      if order[0] != e.origin {
        assert e !in QueueOf(idle, order[0]);
      } else {
        assert e.origin !in order[1..];
      }
    }
  }

  lemma {:induction false} CloseAllInv(p: Pool, order: seq<string>, max: nat)
    requires Inv(p, max) && Enumerates(order, p.idle)
    ensures Inv(CloseAll(p, order), max)
  {
    var r := CloseAll(p, order);
    forall e ensures Places(r, e) == Places(p, e) {
      FlatCount(p.idle, order, e);
    }
  }

  lemma {:induction false} RunInv(p: Pool, events: seq<Event>, max: nat)
    requires Inv(p, max)
    ensures Inv(Run(p, events, max), max)
    decreases |events|
  {
    hide Inv, Take, Release, Expire, CloseAll, Enumerates;
    if events != [] {
      match events[0] {
        case TakeOne(origin) => TakeInv(p, origin, max);
        case GiveBack(origin) => ReleaseInv(p, origin, max);
        case TimesOut(entry) => ExpireInv(p, entry, max);
        case Shut(order) => if Enumerates(order, p.idle) { CloseAllInv(p, order, max); }
      }
      RunInv(Handle(p, events[0], max), events[1..], max);
    }
  }

  // ---------------------------------------------------------------- main results

  /** Ownership over any sequence of operations: every released stream is idle, handed out or closed, in
      exactly one of these and once; no stored queue is empty or over the limit. */
  lemma {:induction false} EachStreamInOnePlace(events: seq<Event>, max: nat)
    ensures var p := Run(FRESH, events, max);
            && (forall n :: 0 <= n < |p.released| ==> p.released[n].id == n && Places(p, p.released[n]) == 1)
            && (forall e :: Places(p, e) > 0 ==> e in p.released)
            && (forall origin :: origin in p.idle ==> 0 < |p.idle[origin]| <= max)
  {
    hide Run;
    RunInv(FRESH, events, max);
  }

  lemma {:induction false} QueueFits(p: Pool, origin: string, max: nat)
    requires IdleInv(p, max)
    ensures |QueueOf(p.idle, origin)| <= max
  {
  }

  /** A stream given back becomes the newest idle one of its key; the oldest makes room for it when the queue is
      full, and it is closed itself when nothing may be idle. Other keys are not touched. */
  lemma {:induction false} ReleaseKeepsNewest(events: seq<Event>, max: nat, origin: string, other: string)
    ensures var p := Run(FRESH, events, max);
            var r, e, before := Release(p, origin, max), Entry(|p.released|, origin), QueueOf(p.idle, origin);
            && r.released == p.released + [e] && r.handed == p.handed
            && (other != origin ==> QueueOf(r.idle, other) == QueueOf(p.idle, other))
            && (|before| < max ==> QueueOf(r.idle, origin) == before + [e] && r.closed == p.closed)
            && (0 < max <= |before| ==>
                  QueueOf(r.idle, origin) == before[1..] + [e] && r.closed == p.closed + [before[0]])
            && (max == 0 ==> QueueOf(r.idle, origin) == [] && r.closed == p.closed + [e])
  {
    hide Run;
    RunInv(FRESH, events, max);
    var p := Run(FRESH, events, max);
    QueueFits(p, origin, max);
    hide IdleInv, Inv;
    var queue := QueueOf(p.idle, origin) + [Entry(|p.released|, origin)];
    assert queue[0..] == queue && queue[..0] == [];
    if |queue| == max + 1 > 1 {
      assert queue[1..] == QueueOf(p.idle, origin)[1..] + [Entry(|p.released|, origin)];
      assert queue[..1] == [QueueOf(p.idle, origin)[0]];
    }
  }

  lemma {:induction false} WithoutSplit(a: seq<Entry>, e: Entry, b: seq<Entry>)
    requires e !in a && e !in b
    ensures Without(a + [e] + b, e) == a + b
  {
    var queue := a + [e] + b;
    if a == [] {
      assert queue[1..] == b;
      WithoutNone(b, e);
    } else {
      assert queue[0] == a[0] && a[0] != e && queue[1..] == a[1..] + [e] + b;
      WithoutSplit(a[1..], e, b);
      hide Without;
      assert [a[0]] + (a[1..] + b) == a + b;
    }
  }

  lemma {:induction false} WithoutNone(queue: seq<Entry>, e: Entry)
    requires e !in queue
    ensures Without(queue, e) == queue
  {
    if queue != [] {
      WithoutNone(queue[1..], e);
    }
  }

  /** An idle stream whose timer fires is closed and taken out from between its neighbours; nothing else
      changes, and a timer of a stream that is not idle does nothing. */
  lemma {:induction false} ExpireCloses(events: seq<Event>, max: nat, e: Entry, other: string)
    ensures var p := Run(FRESH, events, max);
            var r, queue := Expire(p, e), QueueOf(p.idle, e.origin);
            if e !in queue then r == p
            else
              && r.closed == p.closed + [e] && r.handed == p.handed && r.released == p.released
              && (other != e.origin ==> QueueOf(r.idle, other) == QueueOf(p.idle, other))
              && exists i :: 0 <= i < |queue| && queue[i] == e
                             && QueueOf(r.idle, e.origin) == queue[..i] + queue[i + 1..]
  {
    hide Run;
    RunInv(FRESH, events, max);
    var p := Run(FRESH, events, max);
    var queue := QueueOf(p.idle, e.origin);
    if e in queue {
      var i := Position(queue, e, e.origin, max, p.released);
      hide Inv, IdleInv;
      WithoutSplit(queue[..i], e, queue[i + 1..]);
      StoreAt(p.idle, e.origin, Without(queue, e), other);
      StoreAt(p.idle, e.origin, Without(queue, e), e.origin);
    }
  }

  lemma {:induction false} Position(queue: seq<Entry>, e: Entry, origin: string, max: nat, released: seq<Entry>)
    returns (i: nat)
    requires QueueInv(queue, origin, max, released) && e in queue
    ensures i < |queue| && queue[i] == e && queue == queue[..i] + [e] + queue[i + 1..]
    ensures e !in queue[..i] && e !in queue[i + 1..]
  {
    i :| 0 <= i < |queue| && queue[i] == e;
  }

  /** Shutting the pool closes every idle stream, whatever the order of the keys. */
  lemma {:induction false} ShutCloses(events: seq<Event>, max: nat, order: seq<string>, e: Entry)
    ensures var p := Run(FRESH, events, max);
            var r := CloseAll(p, order);
            Enumerates(order, p.idle) ==>
              && r.idle == map[] && r.handed == p.handed && r.released == p.released
              && (e in QueueOf(p.idle, e.origin) || e in p.closed <==> e in r.closed)
  {
    hide Run;
    RunInv(FRESH, events, max);
    var p := Run(FRESH, events, max);
    if Enumerates(order, p.idle) {
      hide Inv;
      FlatCount(p.idle, order, e);
    }
  }

  /** `take` hands out the oldest idle stream released under that very key, and nothing only when none is
      idle there. */
  lemma {:induction false} TakesTheOldest(events: seq<Event>, max: nat, origin: string)
    ensures var p := Run(FRESH, events, max);
            var (r, taken) := Take(p, origin);
            && (taken.None? <==> forall e :: e in p.released && e.origin == origin ==> e in p.handed || e in p.closed)
            && (taken.Some? ==>
                  && taken.value.origin == origin && taken.value in QueueOf(p.idle, origin)
                  && r.handed == p.handed + [taken.value] && taken.value !in QueueOf(r.idle, origin)
                  && forall e :: e in p.released && e.origin == origin && e.id < taken.value.id ==>
                       e in p.handed || e in p.closed)
  {
    hide Run;
    RunInv(FRESH, events, max);
    var p := Run(FRESH, events, max);
    var queue := QueueOf(p.idle, origin);
    forall e | e in p.released && e.origin == origin
      ensures e in queue || e in p.handed || e in p.closed
      ensures e in queue ==> e !in p.handed && e !in p.closed
    {
      assert Places(p, e) == 1;
    }
    if queue != [] {
      var e := queue[0];
      assert e in p.released && e.origin == origin && e in queue;
      StoreAt(p.idle, origin, queue[1..], origin);
    }
  }

  // ---------------------------------------------------------------- the object

  class ConnectionPool {
    var idle: Queues
    var handed: seq<Entry>
    var closed: seq<Entry>
    var released: seq<Entry>

    ghost function View(): Pool
      reads this
    {
      Pool(idle, handed, closed, released)
    }

    constructor ()
      ensures View() == FRESH
    {
      idle, handed, closed, released := map[], [], [], [];
    }

    method TakeStream(origin: string) returns (taken: Option<Entry>)
      modifies this
      ensures (View(), taken) == Take(old(View()), origin)
    {
      if origin !in idle {
        assert idle == idle - {origin};
        return None;
      }
      var queue := idle[origin];
      if queue == [] {
        idle := idle - {origin};
        return None;
      }
      var item := queue[0];
      queue := queue[1..];
      idle := if queue == [] then idle - {origin} else idle[origin := queue];
      handed := handed + [item];
      return Some(item);
    }

    /** Appends, then evicts the oldest until the queue fits. */
    method ReleaseStream(origin: string, max: nat)
      modifies this
      ensures View() == Release(old(View()), origin, max)
    {
      var item := Entry(|released|, origin);
      released := released + [item];
      if max == 0 {
        closed := closed + [item];
        return;
      }
      var queue := (if origin in idle then idle[origin] else []) + [item];
      ghost var full, k := queue, 0;
      assert full[..0] == [] && closed + [] == closed;
      while |queue| > max
        invariant k <= |full| && queue == full[k..] && closed == old(closed) + full[..k]
        invariant idle == old(idle) && handed == old(handed) && released == old(released) + [item]
        invariant k > 0 ==> |queue| >= max
      {
        assert full[..k + 1] == full[..k] + [queue[0]];
        closed := closed + [queue[0]];
        queue := queue[1..];
        k := k + 1;
      }
      idle := idle[origin := queue];
    }

    method ExpireEntry(item: Entry)
      requires item in QueueOf(idle, item.origin)
      modifies this
      ensures View() == Expire(old(View()), item)
    {
      var queue, kept, i := idle[item.origin], [], 0;
      assert queue[0..] == queue;
      while i < |queue|
        invariant 0 <= i <= |queue|
        invariant kept + Without(queue[i..], item) == Without(queue, item)
      {
        assert queue[i..][1..] == queue[i + 1..];
        if queue[i] != item {
          assert kept + ([queue[i]] + Without(queue[i + 1..], item)) == kept + [queue[i]] + Without(queue[i + 1..], item);
          kept := kept + [queue[i]];
        } else {
          assert [] + Without(queue[i + 1..], item) == Without(queue[i + 1..], item);
        }
        i := i + 1;
      }
      assert queue[i..] == [] && kept + [] == kept;
      idle := if kept == [] then idle - {item.origin} else idle[item.origin := kept];
      closed := closed + [item];
    }

    method CloseAllStreams(order: seq<string>)
      requires Enumerates(order, idle)
      modifies this
      ensures View() == CloseAll(old(View()), order)
    {
      var i := 0;
      assert order[0..] == order;
      while i < |order|
        invariant 0 <= i <= |order| && idle == old(idle) && handed == old(handed) && released == old(released)
        invariant closed + Flat(idle, order[i..]) == old(closed) + Flat(idle, order)
      {
        assert order[i..][1..] == order[i + 1..];
        assert closed + (QueueOf(idle, order[i]) + Flat(idle, order[i + 1..]))
               == closed + QueueOf(idle, order[i]) + Flat(idle, order[i + 1..]);
        closed := closed + idle[order[i]];
        i := i + 1;
      }
      assert order[i..] == [] && closed + [] == closed;
      idle := map[];
    }
  }
}
