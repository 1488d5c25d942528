/** The index of a parsed form: fields and files stably sorted by name, then cut into groups, so that all
    values of one name are found together and in the order of the body. */
module FormIndex {
  import opened Text
  import opened Multipart

  /** `std::string` ordering. */
  predicate Less(a: string, b: string) {
    if b == "" then false
    else if a == "" then true
    else if a[0] == b[0] then Less(a[1..], b[1..])
    else a[0] < b[0]
  }

  lemma {:induction false} Trichotomy(a: string, b: string)
    ensures Less(a, b) || Less(b, a) || a == b
    ensures !(Less(a, b) && Less(b, a)) && !Less(a, a)
  {
    if a != "" && b != "" && a[0] == b[0] {
      Trichotomy(a[1..], b[1..]);
      Trichotomy(a[1..], a[1..]);
      assert a == [a[0]] + a[1..] && b == [b[0]] + b[1..];
    } else if a != "" {
      Trichotomy(a[1..], a[1..]);
    }
  }

  lemma {:induction false} LessTransitive(a: string, b: string, c: string)
    requires Less(a, b) && Less(b, c)
    ensures Less(a, c)
  {
    if a != "" && a[0] == b[0] && b[0] == c[0] {
      LessTransitive(a[1..], b[1..], c[1..]);
    }
  }

  predicate SortedByName(parts: seq<Part>) {
    forall i, j :: 0 <= i < j < |parts| ==> !Less(parts[j].head.name, parts[i].head.name)
  }

  /** Puts a part in front of the first one that is not smaller. */
  function Insert(part: Part, parts: seq<Part>): (r: seq<Part>)
    ensures forall p :: p in r <==> p == part || p in parts
  {
    if parts == [] || !Less(parts[0].head.name, part.head.name) then [part] + parts
    else [parts[0]] + Insert(part, parts[1..])
  }

  /** A stable sort: `std::stable_sort` with the name comparison. */
  function StableSort(parts: seq<Part>): seq<Part> {
    if parts == [] then [] else Insert(parts[0], StableSort(parts[1..]))
  }

  /** The parts of one name, in order. */
  function Named(parts: seq<Part>, name: string): seq<Part> {
    if parts == [] then []
    else (if parts[0].head.name == name then [parts[0]] else []) + Named(parts[1..], name)
  }

  lemma {:induction false} NamedConcat(a: seq<Part>, b: seq<Part>, name: string)
    ensures Named(a + b, name) == Named(a, name) + Named(b, name)
  {
    if a == [] {
      assert a + b == b;
    } else {
      NamedConcat(a[1..], b, name);
      assert (a + b)[1..] == a[1..] + b;
      assert Named(a + b, name) == (if a[0].head.name == name then [a[0]] else []) + Named(a[1..] + b, name);
    }
  }

  lemma {:induction false} InsertSorted(part: Part, parts: seq<Part>)
    requires SortedByName(parts)
    ensures SortedByName(Insert(part, parts))
  {
    if parts != [] && Less(parts[0].head.name, part.head.name) {
      InsertSorted(part, parts[1..]);
      var r := Insert(part, parts[1..]);
      forall j | 0 <= j < |r|
        ensures !Less(r[j].head.name, parts[0].head.name)
      {
        assert r[j] in r;
        Trichotomy(part.head.name, parts[0].head.name);
      }
    } else if parts != [] {
      Trichotomy(parts[0].head.name, parts[0].head.name);
      forall j | 0 <= j < |parts|
        ensures !Less(parts[j].head.name, part.head.name)
      {
        NotLessChain(parts[j].head.name, parts[0].head.name, part.head.name);
      }
    }
  }

  lemma NotLessChain(a: string, b: string, c: string)
    requires !Less(b, c) && !Less(a, b)
    ensures !Less(a, c)
  {
    Trichotomy(a, b);
    Trichotomy(b, c);
    if Less(b, a) && Less(c, b) {
      LessTransitive(c, b, a);
      Trichotomy(a, c);
    }
  }

  lemma {:induction false} InsertNamed(part: Part, parts: seq<Part>, name: string)
    ensures Named(Insert(part, parts), name) == Named([part] + parts, name)
  {
    if parts != [] && Less(parts[0].head.name, part.head.name) {
      InsertNamed(part, parts[1..], name);
      Trichotomy(parts[0].head.name, part.head.name);
      assert ([parts[0]] + Insert(part, parts[1..]))[1..] == Insert(part, parts[1..]);
      assert ([part] + parts[1..])[1..] == parts[1..];
      assert ([part] + parts)[1..] == parts;
    }
  }

  /** Sorting orders the names and keeps, for each name, its parts in their original order. */
  lemma {:induction false} StableSortIsStable(parts: seq<Part>, name: string)
    ensures SortedByName(StableSort(parts))
    ensures Named(StableSort(parts), name) == Named(parts, name)
  {
    if parts != [] {
      var rest := StableSort(parts[1..]);
      StableSortIsStable(parts[1..], name);
      InsertSorted(parts[0], rest);
      InsertNamed(parts[0], rest, name);
      assert ([parts[0]] + rest)[1..] == rest;
    }
  }

  datatype Group = Group(name: string, offset: nat, count: nat)

  predicate AllNamed(parts: seq<Part>, name: string) {
    forall i :: 0 <= i < |parts| ==> parts[i].head.name == name
  }

  /** Where the first `k` groups end. */
  function EndOf(groups: seq<Group>, k: nat): nat
    requires k <= |groups|
  {
    if k == 0 then 0 else groups[k - 1].offset + groups[k - 1].count
  }

  /** Group `k` starts where the one before it ends and holds parts of its own name only. */
  predicate GroupAt(groups: seq<Group>, views: seq<Part>, k: nat)
    requires k < |groups|
  {
    && 0 < groups[k].count && groups[k].offset == EndOf(groups, k) && EndOf(groups, k + 1) <= |views|
    && AllNamed(views[groups[k].offset..EndOf(groups, k + 1)], groups[k].name)
  }

  /** The groups tile the views, each holds parts of its own name, and no name comes twice. */
  predicate Grouped(groups: seq<Group>, views: seq<Part>) {
    && (forall k :: 0 <= k < |groups| ==> GroupAt(groups, views, k))
    && EndOf(groups, |groups|) == |views|
    && (forall k, l :: 0 <= k < l < |groups| ==> groups[k].name != groups[l].name)
  }

  /** The grouping loop. */
  method BuildGroups(sorted: seq<Part>) returns (views: seq<Part>, groups: seq<Group>)
    requires SortedByName(sorted)
    ensures views == sorted && Grouped(groups, views)
  {
    hide Grouped, SortedByName;
    views, groups := [], [];
    NoGroups();
    for i := 0 to |sorted|
      invariant views == sorted[..i] && Grouped(groups, views)
    {
      var part := sorted[i];
      ghost var before := groups;
      if groups == [] || groups[|groups| - 1].name != part.head.name {
        NewName(sorted, i, groups);
        StartGroup(groups, views, part);
        groups := groups + [Group(part.head.name, |views|, 0)];
      } else {
        GrowGroup(groups, views, part);
      }
      views := views + [part];
      var last := groups[|groups| - 1];
      groups := groups[|groups| - 1 := last.(count := last.count + 1)];
      assert |before| < |groups| ==> groups == before + [Group(part.head.name, i, 1)];
    }
    assert sorted[..|sorted|] == sorted;
  }

  lemma NoGroups()
    ensures Grouped([], [])
  {
  }

  /** Groups already there keep their place when a part is appended. */
  lemma GroupKept(groups: seq<Group>, views: seq<Part>, more: seq<Group>, after: seq<Part>, k: nat)
    requires k < |groups| && k < |more| && GroupAt(groups, views, k) && views <= after
    requires forall j :: 0 <= j <= k ==> more[j] == groups[j]
    ensures GroupAt(more, after, k)
  {
    hide AllNamed;
    assert after[groups[k].offset..EndOf(groups, k + 1)] == views[groups[k].offset..EndOf(groups, k + 1)];
  }

  lemma StartGroup(groups: seq<Group>, views: seq<Part>, part: Part)
    requires Grouped(groups, views)
    requires forall k :: 0 <= k < |groups| ==> groups[k].name != part.head.name
    ensures Grouped(groups + [Group(part.head.name, |views|, 1)], views + [part])
  {
    hide GroupAt;
    var more, after := groups + [Group(part.head.name, |views|, 1)], views + [part];
    forall k | 0 <= k < |more| ensures GroupAt(more, after, k) {
      if k < |groups| {
        GroupKept(groups, views, more, after, k);
      } else {
        FirstInGroup(groups, views, part);
      }
    }
  }

  lemma FirstInGroup(groups: seq<Group>, views: seq<Part>, part: Part)
    requires EndOf(groups, |groups|) == |views|
    ensures GroupAt(groups + [Group(part.head.name, |views|, 1)], views + [part], |groups|)
  {
  }

  lemma GrowGroup(groups: seq<Group>, views: seq<Part>, part: Part)
    requires Grouped(groups, views) && groups != [] && groups[|groups| - 1].name == part.head.name
    ensures var last := groups[|groups| - 1];
            Grouped(groups[|groups| - 1 := last.(count := last.count + 1)], views + [part])
  {
    hide GroupAt;
    var n, last := |groups| - 1, groups[|groups| - 1];
    var more, after := groups[n := last.(count := last.count + 1)], views + [part];
    forall k | 0 <= k < |more| ensures GroupAt(more, after, k) {
      assert GroupAt(groups, views, k);
      if k < n {
        GroupKept(groups, views, more, after, k);
      } else {
        LastInGroup(groups, views, part);
      }
    }
  }

  lemma LastInGroup(groups: seq<Group>, views: seq<Part>, part: Part)
    requires groups != [] && GroupAt(groups, views, |groups| - 1) && EndOf(groups, |groups|) == |views|
    requires groups[|groups| - 1].name == part.head.name
    ensures var n, last := |groups| - 1, groups[|groups| - 1];
            GroupAt(groups[n := last.(count := last.count + 1)], views + [part], n)
  {
    var n, last := |groups| - 1, groups[|groups| - 1];
    var more, after := groups[n := last.(count := last.count + 1)], views + [part];
    assert views[last.offset..|views|] + [part] == after[last.offset..|views| + 1];
    assert EndOf(more, n + 1) == |views| + 1 && EndOf(more, n) == EndOf(groups, n);
  }

  /** The first and the last part of a group have its name. */
  lemma GroupEnds(groups: seq<Group>, views: seq<Part>, k: nat)
    requires k < |groups| && GroupAt(groups, views, k)
    ensures var g := groups[k];
            && g.offset < EndOf(groups, k + 1) <= |views|
            && views[g.offset].head.name == g.name && views[EndOf(groups, k + 1) - 1].head.name == g.name
  {
    var g := groups[k];
    var slice := views[g.offset..EndOf(groups, k + 1)];
    assert slice[0] == views[g.offset] && slice[|slice| - 1] == views[EndOf(groups, k + 1) - 1];
  }

  /** In a sorted list a name that differs from its predecessor's has not been seen before. */
  lemma NewName(sorted: seq<Part>, i: nat, groups: seq<Group>)
    requires SortedByName(sorted) && i < |sorted| && Grouped(groups, sorted[..i])
    requires groups == [] || groups[|groups| - 1].name != sorted[i].head.name
    ensures forall k :: 0 <= k < |groups| ==> groups[k].name != sorted[i].head.name
  {
    hide GroupAt;
    forall k | 0 <= k < |groups| ensures groups[k].name != sorted[i].head.name {
      assert GroupAt(groups, sorted[..i], k) && GroupAt(groups, sorted[..i], |groups| - 1);
      GroupEnds(groups, sorted[..i], k);
      GroupEnds(groups, sorted[..i], |groups| - 1);
      assert sorted[groups[k].offset].head.name == groups[k].name;
      assert sorted[i - 1].head.name == groups[|groups| - 1].name;
      Trichotomy(sorted[i - 1].head.name, sorted[i].head.name);
    }
  }

  method LookUp(groups: seq<Group>, views: seq<Part>, name: string) returns (found: seq<Part>)
    requires Grouped(groups, views)
    ensures found == Named(views, name)
  {
    for k := 0 to |groups|
      invariant forall j :: 0 <= j < k ==> groups[j].name != name
    {
      if groups[k].name == name {
        GroupIsFilter(groups, views, name, k);
        return views[groups[k].offset..groups[k].offset + groups[k].count];
      }
    }
    NoGroup(groups, views, name, |groups|);
    assert views[..|views|] == views;
    return [];
  }

  lemma {:induction false} NamedUniform(parts: seq<Part>, other: string, name: string)
    requires AllNamed(parts, other)
    ensures Named(parts, name) == if other == name then parts else []
  {
    if parts != [] {
      NamedUniform(parts[1..], other, name);
      assert parts == [parts[0]] + parts[1..];
    }
  }

  /** What a group contributes to the parts of a name. */
  lemma GroupNamed(groups: seq<Group>, views: seq<Part>, name: string, k: nat)
    requires k < |groups| && GroupAt(groups, views, k)
    ensures var slice := views[groups[k].offset..EndOf(groups, k + 1)];
            Named(slice, name) == if groups[k].name == name then slice else []
  {
    hide AllNamed;
    NamedUniform(views[groups[k].offset..EndOf(groups, k + 1)], groups[k].name, name);
  }

  lemma NamedNone(name: string)
    ensures Named([], name) == []
  {
  }

  lemma {:induction false} NoGroup(groups: seq<Group>, views: seq<Part>, name: string, k: nat)
    requires Grouped(groups, views) && k <= |groups|
    requires forall j :: 0 <= j < k ==> groups[j].name != name
    ensures EndOf(groups, k) <= |views| && Named(views[..EndOf(groups, k)], name) == []
  {
    hide AllNamed, Named;
    NamedNone(name);
    if k > 0 {
      NoGroup(groups, views, name, k - 1);
      assert GroupAt(groups, views, k - 1);
      var from, to := EndOf(groups, k - 1), EndOf(groups, k);
      assert views[..to] == views[..from] + views[from..to];
      NamedConcat(views[..from], views[from..to], name);
      GroupNamed(groups, views, name, k - 1);
    }
  }

  lemma {:induction false} NoGroupAfter(groups: seq<Group>, views: seq<Part>, name: string, k: nat)
    requires Grouped(groups, views) && k <= |groups|
    requires forall j :: k <= j < |groups| ==> groups[j].name != name
    ensures EndOf(groups, k) <= |views| && Named(views[EndOf(groups, k)..], name) == []
    decreases |groups| - k
  {
    hide AllNamed;
    if k < |groups| {
      NoGroupAfter(groups, views, name, k + 1);
      assert GroupAt(groups, views, k);
      var from, to := EndOf(groups, k), EndOf(groups, k + 1);
      assert views[from..] == views[from..to] + views[to..];
      NamedConcat(views[from..to], views[to..], name);
      GroupNamed(groups, views, name, k);
    } else {
      assert views[|views|..] == [];
    }
  }

  lemma GroupIsFilter(groups: seq<Group>, views: seq<Part>, name: string, k: nat)
    requires Grouped(groups, views) && k < |groups| && groups[k].name == name
    ensures groups[k].offset + groups[k].count <= |views|
    ensures Named(views, name) == views[groups[k].offset..groups[k].offset + groups[k].count]
  {
    hide AllNamed, Named;
    NoGroup(groups, views, name, k);
    NoGroupAfter(groups, views, name, k + 1);
    assert GroupAt(groups, views, k);
    GroupNamed(groups, views, name, k);
    var from, to := EndOf(groups, k), EndOf(groups, k + 1);
    var front, middle, back := views[..from], views[from..to], views[to..];
    assert views == front + (middle + back);
    NamedConcat(middle, back, name);
    NamedConcat(front, middle + back, name);
    assert Named(views, name) == [] + (middle + []);
  }

  // ---------------------------------------------------------------- the form

  function Fields(parts: seq<Part>): seq<Part> {
    if parts == [] then []
    else (if parts[0].head.filename.None? then [parts[0]] else []) + Fields(parts[1..])
  }

  function Files(parts: seq<Part>): seq<Part> {
    if parts == [] then []
    else (if parts[0].head.filename.Some? then [parts[0]] else []) + Files(parts[1..])
  }

  lemma {:induction false} SplitSnoc(parts: seq<Part>, last: Part)
    ensures Fields(parts + [last]) == Fields(parts) + (if last.head.filename.None? then [last] else [])
    ensures Files(parts + [last]) == Files(parts) + (if last.head.filename.Some? then [last] else [])
  {
    if parts == [] {
      assert parts + [last] == [last] && [last][1..] == [];
    } else {
      assert (parts + [last])[1..] == parts[1..] + [last];
      SplitSnoc(parts[1..], last);
    }
  }

  lemma NoParts()
    ensures Fields([]) == [] && Files([]) == []
  {
  }

  /** Every part is a field or a file, as it has no file name or one, and as often as in the body. */
  lemma {:induction false} FieldsAndFiles(parts: seq<Part>, part: Part)
    ensures multiset(Fields(parts))[part] == if part.head.filename.None? then multiset(parts)[part] else 0
    ensures multiset(Files(parts))[part] == if part.head.filename.Some? then multiset(parts)[part] else 0
  {
    if parts != [] {
      FieldsAndFiles(parts[1..], part);
      assert parts == [parts[0]] + parts[1..];
    }
  }

  class Form {
    var parts: seq<Part>
    var fieldViews: seq<Part>
    var fieldGroups: seq<Group>
    var fileViews: seq<Part>
    var fileGroups: seq<Group>

    /** The indexes describe the parts. */
    ghost predicate Indexed()
      reads this
    {
      && Grouped(fieldGroups, fieldViews) && Grouped(fileGroups, fileViews)
      && fieldViews == StableSort(Fields(parts)) && fileViews == StableSort(Files(parts))
    }

    constructor (parts: seq<Part>)
      ensures Indexed() && this.parts == parts
    {
      this.parts := parts;
      fieldViews, fieldGroups, fileViews, fileGroups := [], [], [], [];
      new;
      RebuildIndexes();
    }

    method RebuildIndexes()
      modifies this
      ensures Indexed() && parts == old(parts)
    {
      hide Grouped, SortedByName, Named, StableSort, Fields, Files;
      var fields, files := [], [];
      NoParts();
      for i := 0 to |parts|
        invariant parts == old(parts)
        invariant fields == Fields(parts[..i]) && files == Files(parts[..i])
      {
        assert parts[..i + 1] == parts[..i] + [parts[i]];
        SplitSnoc(parts[..i], parts[i]);
        if parts[i].head.filename.Some? {
          files := files + [parts[i]];
        } else {
          fields := fields + [parts[i]];
        }
      }
      assert parts[..|parts|] == parts;
      StableSortIsStable(fields, "");
      StableSortIsStable(files, "");
      fieldViews, fieldGroups := BuildGroups(StableSort(fields));
      fileViews, fileGroups := BuildGroups(StableSort(files));
    }

    /** All fields of a name, in the order of the body. */
    method FieldsNamed(name: string) returns (found: seq<Part>)
      requires Indexed()
      ensures found == Named(Fields(parts), name)
    {
      StableSortIsStable(Fields(parts), name);
      found := LookUp(fieldGroups, fieldViews, name);
    }

    /** All files of a name, in the order of the body. */
    method FilesNamed(name: string) returns (found: seq<Part>)
      requires Indexed()
      ensures found == Named(Files(parts), name)
    {
      StableSortIsStable(Files(parts), name);
      found := LookUp(fileGroups, fileViews, name);
    }
  }
}
