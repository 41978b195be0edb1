/** `ArchiveGroupIndex` (keg/archive.py:85-102): the entries of every index of a group,
    tagged with the position of their archive, in the order `sorted` puts the tuples
    `(key, size, archive_id, offset)` in, and the set of their keys. */
module GroupIndexes {
  import opened Common
  import StringOrder
  import opened ArchiveFormat

  /** One merged entry: the tuple `(key, size, archive_id, offset)`. */
  datatype GroupItem = GroupItem(key: string, size: nat, archiveId: nat, offset: nat)

  /** Python's `<=` on those tuples: the first field that differs decides. */
  predicate ItemLessEq(a: GroupItem, b: GroupItem) {
    if a.key != b.key then StringOrder.LessEq(a.key, b.key)
    else if a.size != b.size then a.size < b.size
    else if a.archiveId != b.archiveId then a.archiveId < b.archiveId
    else a.offset <= b.offset
  }

  lemma ItemLessEqTotal(a: GroupItem, b: GroupItem)
    ensures ItemLessEq(a, b) || ItemLessEq(b, a)
  {
    StringOrder.LessEqTotal(a.key, b.key);
  }

  lemma ItemLessEqAntisymmetric(a: GroupItem, b: GroupItem)
    requires ItemLessEq(a, b) && ItemLessEq(b, a)
    ensures a == b
  {
    if a.key != b.key {
      StringOrder.LessEqAntisymmetric(a.key, b.key);
    }
  }

  lemma ItemLessEqTransitive(a: GroupItem, b: GroupItem, c: GroupItem)
    requires ItemLessEq(a, b) && ItemLessEq(b, c)
    ensures ItemLessEq(a, c)
  {
    if a.key != b.key && b.key != c.key {
      StringOrder.LessEqTransitive(a.key, b.key, c.key);
      if a.key == c.key {
        StringOrder.LessEqAntisymmetric(b.key, c.key);
      }
    }
  }

  /** In ascending order. */
  predicate Sorted(s: seq<GroupItem>) {
    forall i, j :: 0 <= i < j < |s| ==> ItemLessEq(s[i], s[j])
  }

  /** An item no greater than any of a sorted sequence can go in front of it. */
  lemma ConsSorted(y: GroupItem, s: seq<GroupItem>)
    requires Sorted(s) && forall j :: 0 <= j < |s| ==> ItemLessEq(y, s[j])
    ensures Sorted([y] + s)
  {
    var r := [y] + s;
    forall i, j | 0 <= i < j < |r| ensures ItemLessEq(r[i], r[j]) {
      if i > 0 {
        assert r[i] == s[i - 1] && r[j] == s[j - 1];
      }
    }
  }

  /** `x` put in its place in the sorted `s`. */
  function Insert(x: GroupItem, s: seq<GroupItem>): (r: seq<GroupItem>)
    ensures multiset(r) == multiset(s) + multiset{x}
    ensures Sorted(s) ==> Sorted(r)
  {
    if s == [] then [x]
    else if ItemLessEq(x, s[0]) then
      assert Sorted(s) ==> Sorted([x] + s) by {
        if Sorted(s) {
          SortedInFront(x, s);
        }
      }
      assert s == [s[0]] + s[1..];
      [x] + s
    else
      var rest := Insert(x, s[1..]);
      assert s == [s[0]] + s[1..];
      assert Sorted(s) ==> Sorted([s[0]] + rest) by {
        if Sorted(s) {
          SortedBehind(x, s, rest);
        }
      }
      [s[0]] + rest
  }

  /** An item no greater than the head of a sorted sequence goes in front of it. */
  lemma SortedInFront(x: GroupItem, s: seq<GroupItem>)
    requires Sorted(s) && s != [] && ItemLessEq(x, s[0])
    ensures Sorted([x] + s)
  {
    forall j | 0 <= j < |s| ensures ItemLessEq(x, s[j]) {
      if j > 0 {
        ItemLessEqTransitive(x, s[0], s[j]);
      }
    }
    ConsSorted(x, s);
  }

  /** An item greater than the head of a sorted sequence, sorted into its tail, leaves
      the head in front. */
  lemma SortedBehind(x: GroupItem, s: seq<GroupItem>, rest: seq<GroupItem>)
    requires Sorted(s) && s != [] && !ItemLessEq(x, s[0])
    requires Sorted(rest) && multiset(rest) == multiset(s[1..]) + multiset{x}
    ensures Sorted([s[0]] + rest)
  {
    ItemLessEqTotal(x, s[0]);
    forall j | 0 <= j < |rest| ensures ItemLessEq(s[0], rest[j]) {
      assert rest[j] in multiset(s[1..]) + multiset{x};
      if rest[j] != x {
        assert rest[j] in s[1..];
      }
    }
    ConsSorted(s[0], rest);
  }

  /** `sorted(s)`: an insertion sort. */
  function Sort(s: seq<GroupItem>): (r: seq<GroupItem>)
    ensures Sorted(r)
    ensures multiset(r) == multiset(s)
  {
    if s == [] then []
    else
      assert s == [s[0]] + s[1..];
      Insert(s[0], Sort(s[1..]))
  }

  /** The head of a sorted sequence comes before all of it. */
  lemma SortedHeadLeast(s: seq<GroupItem>, y: GroupItem)
    requires Sorted(s) && y in s
    ensures ItemLessEq(s[0], y)
  {
    if y == s[0] {
      ItemLessEqTotal(y, y);
    }
  }

  /** Since `<=` on the tuples is a total order, a sorted arrangement of a collection is
      unique: whatever sorts `s` yields exactly `Sort(s)`. */
  lemma {:induction false} SortedUnique(a: seq<GroupItem>, b: seq<GroupItem>)
    requires Sorted(a) && Sorted(b) && multiset(a) == multiset(b)
    ensures a == b
    decreases |a|
  {
    if a != [] {
      assert a[0] in multiset(b);
      assert b[0] in multiset(a);
      SortedHeadLeast(a, b[0]);
      SortedHeadLeast(b, a[0]);
      ItemLessEqAntisymmetric(a[0], b[0]);
      MultisetTail(a, b);
      SortedUnique(a[1..], b[1..]);
    }
  }

  lemma MultisetTail(a: seq<GroupItem>, b: seq<GroupItem>)
    requires a != [] && b != [] && a[0] == b[0] && multiset(a) == multiset(b)
    ensures multiset(a[1..]) == multiset(b[1..])
  {
    assert a == [a[0]] + a[1..] && b == [b[0]] + b[1..];
    calc {
      multiset(a[1..]);
      multiset(a) - multiset{a[0]};
      multiset(b) - multiset{b[0]};
      multiset(b[1..]);
    }
  }

  lemma SortIsSorted(s: seq<GroupItem>, t: seq<GroupItem>)
    requires Sorted(t) && multiset(t) == multiset(s)
    ensures t == Sort(s)
  {
    SortedUnique(t, Sort(s));
  }

  /** One entry of the index at position `archiveId`, as the merge tags it. */
  function Tag(e: Entry, archiveId: nat): GroupItem {
    GroupItem(e.Key(), e.size, archiveId, e.offset)
  }

  /** The entries of one index, tagged with its position. */
  function Tagged(entries: seq<Entry>, archiveId: nat): (r: seq<GroupItem>)
    ensures |r| == |entries|
    ensures forall j :: 0 <= j < |r| ==> r[j] == Tag(entries[j], archiveId)
  {
    seq(|entries|, j requires 0 <= j < |entries| => Tag(entries[j], archiveId))
  }

  /** The generator of `ArchiveGroupIndex.__init__`: every entry of every index, the
      indices numbered from `from` by `enumerate`. */
  function Flatten(lists: seq<seq<Entry>>, from: nat): (r: seq<GroupItem>)
    decreases |lists|
  {
    if lists == [] then [] else Tagged(lists[0], from) + Flatten(lists[1..], from + 1)
  }

  /** Every entry of every index is in the merge, tagged with its index's position. */
  lemma {:induction false} FlattenHas(lists: seq<seq<Entry>>, from: nat, a: nat, j: nat)
    requires a < |lists| && j < |lists[a]|
    ensures Tag(lists[a][j], from + a) in Flatten(lists, from)
    decreases a
  {
    var tail := Flatten(lists[1..], from + 1);
    assert Flatten(lists, from) == Tagged(lists[0], from) + tail;
    if a == 0 {
      assert Tagged(lists[0], from)[j] == Tag(lists[0][j], from);
    } else {
      FlattenHas(lists[1..], from + 1, a - 1, j);
      assert lists[1..][a - 1] == lists[a];
    }
  }

  /** ... and nothing else is: each item of the merge comes from some index. */
  lemma {:induction false} FlattenSource(lists: seq<seq<Entry>>, from: nat, x: GroupItem) returns (a: nat, j: nat)
    requires x in Flatten(lists, from)
    ensures a < |lists| && j < |lists[a]| && x == Tag(lists[a][j], from + a)
    decreases |lists|
  {
    var head := Tagged(lists[0], from);
    var tail := Flatten(lists[1..], from + 1);
    assert Flatten(lists, from) == head + tail;
    if x in head {
      a := 0;
      var k :| 0 <= k < |head| && head[k] == x;
      j := k;
    } else {
      var b, k := FlattenSource(lists[1..], from + 1, x);
      assert lists[1..][b] == lists[b + 1];
      a, j := b + 1, k;
    }
  }

  /** A built `ArchiveGroupIndex`: its `items` and `item_keys`. */
  datatype GroupIndex = GroupIndex(key: string, items: seq<GroupItem>, itemKeys: set<string>)

  /** `ArchiveGroupIndex(indices, key)` over the entries the indices yield, in order. */
  function MergeIndices(lists: seq<seq<Entry>>, key: string): (g: GroupIndex)
    ensures g.key == key
    ensures Sorted(g.items) && multiset(g.items) == multiset(Flatten(lists, 0))
  {
    var items := Sort(Flatten(lists, 0));
    GroupIndex(key, items, set x | x in items :: x.key)
  }

  /** `items` holds every entry of every index exactly as often as the indices yield it,
      each tagged with the position of its index, and nothing else. */
  lemma MergedItems(lists: seq<seq<Entry>>, key: string, x: GroupItem)
    ensures x in MergeIndices(lists, key).items <==>
            exists a, j :: 0 <= a < |lists| && 0 <= j < |lists[a]| && x == Tag(lists[a][j], a)
  {
    var g := MergeIndices(lists, key);
    if x in g.items {
      assert x in multiset(g.items);
      var a, j := FlattenSource(lists, 0, x);
    } else if exists a, j :: 0 <= a < |lists| && 0 <= j < |lists[a]| && x == Tag(lists[a][j], a) {
      var a, j :| 0 <= a < |lists| && 0 <= j < |lists[a]| && x == Tag(lists[a][j], a);
      MergedHas(lists, key, a, j);
    }
  }

  lemma MergedHas(lists: seq<seq<Entry>>, key: string, a: nat, j: nat)
    requires a < |lists| && j < |lists[a]|
    ensures Tag(lists[a][j], a) in MergeIndices(lists, key).items
  {
    var g := MergeIndices(lists, key);
    var flat := Flatten(lists, 0);
    FlattenHas(lists, 0, a, j);
    assert Tag(lists[a][j], a) in multiset(flat);
  }

  /** `item_keys` (and so `has_file`): a key is in it exactly when some index yields an
      entry with that key. */
  lemma MergedKeys(lists: seq<seq<Entry>>, key: string, k: string)
    ensures k in MergeIndices(lists, key).itemKeys <==>
            exists a, j :: 0 <= a < |lists| && 0 <= j < |lists[a]| && lists[a][j].Key() == k
  {
    var g := MergeIndices(lists, key);
    if k in g.itemKeys {
      var x :| x in g.items && x.key == k;
      MergedItems(lists, key, x);
    }
    if exists a, j :: 0 <= a < |lists| && 0 <= j < |lists[a]| && lists[a][j].Key() == k {
      var a, j :| 0 <= a < |lists| && 0 <= j < |lists[a]| && lists[a][j].Key() == k;
      MergedItems(lists, key, Tag(lists[a][j], a));
    }
  }

  /** Every merged entry names an archive of the group. */
  lemma MergedArchiveIds(lists: seq<seq<Entry>>, key: string)
    ensures forall x :: x in MergeIndices(lists, key).items ==> x.archiveId < |lists|
  {
    forall x | x in MergeIndices(lists, key).items ensures x.archiveId < |lists| {
      MergedItems(lists, key, x);
    }
  }

  /** Position of the first item with key `k`, as the loop of `get_file_by_key` finds it. */
  function FirstWithKey(items: seq<GroupItem>, k: string): (r: Option<nat>)
    ensures r.Some? ==> r.value < |items| && items[r.value].key == k
    ensures r.Some? ==> forall j :: 0 <= j < r.value ==> items[j].key != k
    ensures r.None? ==> forall j :: 0 <= j < |items| ==> items[j].key != k
  {
    if items == [] then None
    else if items[0].key == k then Some(0)
    else match FirstWithKey(items[1..], k)
      case None => None
      case Some(i) => Some(i + 1)
  }

  /** In the sorted merge the first item with key `k` is the least of them: the copy
      with the smallest size, then the lowest archive position, then the lowest offset. */
  lemma FirstWithKeyIsLeast(items: seq<GroupItem>, k: string)
    requires Sorted(items) && FirstWithKey(items, k).Some?
    ensures forall y :: y in items && y.key == k ==> ItemLessEq(items[FirstWithKey(items, k).value], y)
  {
    var i := FirstWithKey(items, k).value;
    forall y | y in items && y.key == k ensures ItemLessEq(items[i], y) {
      var j :| 0 <= j < |items| && items[j] == y;
      if j == i {
        ItemLessEqTotal(y, y);
      }
    }
  }
}
