/** The column header tree of the pivot table (src/components/PivotTable.jsx,
    lines 4-34 and 63-70): the sorted column keys, split on `" | "`, become
    nested objects, and under the node of each full key every value field is
    a `null` leaf. An object is an insertion-ordered list of entries. */
module ColumnTree {
  import opened Wrappers
  import opened Strings
  import opened Ordering

  /** `null` (a measure leaf) or an object whose entries keep insertion order. */
  datatype Tree = Leaf | Node(children: seq<Entry>)
  datatype Entry = Entry(key: string, child: Tree)

  /** No key is listed twice in an object. */
  predicate DistinctKeys(ch: seq<Entry>)
  {
    forall i, j :: 0 <= i < j < |ch| ==> ch[i].key != ch[j].key
  }

  /** The position of key `k` among the entries, if present. */
  function Find(ch: seq<Entry>, k: string): (r: Option<nat>)
    ensures r.Some? ==> r.value < |ch| && ch[r.value].key == k && forall j :: 0 <= j < r.value ==> ch[j].key != k
    ensures r.None? ==> forall i :: 0 <= i < |ch| ==> ch[i].key != k
  {
    if ch == [] then None
    else
      match Find(ch[..|ch| - 1], k)
      case Some(i) => Some(i)
      case None => if ch[|ch| - 1].key == k then Some(|ch| - 1) else None
  }

  /** The first entry with key `k` is the one found. */
  lemma FindFirst(ch: seq<Entry>, k: string, i: nat)
    requires i < |ch| && ch[i].key == k && forall j :: 0 <= j < i ==> ch[j].key != k
    ensures Find(ch, k) == Some(i)
  {
  }

  /** Entries with the same keys in the same order find alike. */
  lemma FindSameKeys(a: seq<Entry>, b: seq<Entry>, k: string)
    requires |a| == |b| && forall i :: 0 <= i < |a| ==> a[i].key == b[i].key
    ensures Find(a, k) == Find(b, k)
  {
    match Find(a, k)
    case Some(i) => FindFirst(b, k, i);
    case None =>
  }

  /** `node[k]`, `None` standing for `undefined`. */
  function Lookup(ch: seq<Entry>, k: string): (r: Option<Tree>)
    ensures r.Some? <==> exists i :: 0 <= i < |ch| && ch[i].key == k
  {
    match Find(ch, k)
    case Some(i) => Some(ch[i].child)
    case None => None
  }

  /** `node[k] = t`: an existing key keeps its place, a new key goes last. */
  function Put(ch: seq<Entry>, k: string, t: Tree): (r: seq<Entry>)
    ensures |r| == if Find(ch, k).Some? then |ch| else |ch| + 1
    ensures forall i :: 0 <= i < |r| ==> r[i] == Entry(k, t) || (i < |ch| && r[i] == ch[i])
  {
    match Find(ch, k)
    case Some(i) => ch[i := Entry(k, t)]
    case None => ch + [Entry(k, t)]
  }

  /** After `node[k] = t`, `node[k]` is `t`, every other key reads as before,
      and no key is listed twice if none was. */
  lemma PutLookup(ch: seq<Entry>, k: string, t: Tree)
    ensures Lookup(Put(ch, k, t), k) == Some(t)
    ensures forall q :: q != k ==> Lookup(Put(ch, k, t), q) == Lookup(ch, q)
    ensures DistinctKeys(ch) ==> DistinctKeys(Put(ch, k, t))
  {
    if Find(ch, k).Some? {
      PutLookupFound(ch, k, t);
    } else {
      PutLookupNew(ch, k, t);
    }
  }

  /** `PutLookup` when `k` is already a key: the entry is replaced in place. */
  lemma PutLookupFound(ch: seq<Entry>, k: string, t: Tree)
    requires Find(ch, k).Some?
    ensures Lookup(Put(ch, k, t), k) == Some(t)
    ensures forall q :: q != k ==> Lookup(Put(ch, k, t), q) == Lookup(ch, q)
    ensures DistinctKeys(ch) ==> DistinctKeys(Put(ch, k, t))
  {
    var r := Put(ch, k, t);
    FindFirst(r, k, Find(ch, k).value);
    forall q | q != k ensures Lookup(r, q) == Lookup(ch, q) {
      FindSameKeys(r, ch, q);
    }
  }

  /** `PutLookup` when `k` is new: the entry is appended. */
  lemma PutLookupNew(ch: seq<Entry>, k: string, t: Tree)
    requires Find(ch, k).None?
    ensures Lookup(Put(ch, k, t), k) == Some(t)
    ensures forall q :: q != k ==> Lookup(Put(ch, k, t), q) == Lookup(ch, q)
    ensures DistinctKeys(ch) ==> DistinctKeys(Put(ch, k, t))
  {
    var r := Put(ch, k, t);
    assert r == ch + [Entry(k, t)];
    assert Lookup(r, k) == Some(t) by {
      FindFirst(r, k, |ch|);
    }
    forall q | q != k ensures Lookup(r, q) == Lookup(ch, q) {
      match Find(ch, q)
      case Some(j) =>
        assert r[j] == ch[j];
        FindFirst(r, q, j);
      case None =>
        assert forall i :: 0 <= i < |r| ==> r[i].key != q;
    }
    if DistinctKeys(ch) {
      forall i, j | 0 <= i < j < |r| ensures r[i].key != r[j].key {
        assert r[i] == ch[i];
      }
    }
  }

  /** `values.forEach(val => { current[val] = null; })`. */
  function SetNulls(ch: seq<Entry>, values: seq<string>): seq<Entry>
  {
    if values == [] then ch
    else Put(SetNulls(ch, values[..|values| - 1]), values[|values| - 1], Leaf)
  }

  /** The entries of a node holding exactly the value fields, as leaves. */
  function LeafEntries(values: seq<string>): (r: seq<Entry>)
    ensures |r| == |values| && forall i :: 0 <= i < |values| ==> r[i] == Entry(values[i], Leaf)
  {
    seq(|values|, i requires 0 <= i < |values| => Entry(values[i], Leaf))
  }

  /** One column key's walk (src/components/PivotTable.jsx, lines 13-25): each
      segment's node is reused when it is an object and created otherwise, and
      the value leaves are set under the last one. */
  function InsertPath(ch: seq<Entry>, parts: seq<string>, values: seq<string>): (r: seq<Entry>)
    requires |parts| >= 1
    ensures |r| >= 1
    decreases |parts|
  {
    var sub := SubBefore(ch, parts[0]);
    var sub' := if |parts| == 1 then SetNulls(sub, values) else InsertPath(sub, parts[1..], values);
    Put(ch, parts[0], Node(sub'))
  }

  /** The tree of a list of column keys: the keys inserted in list order. */
  function BuildSpec(columns: seq<string>, values: seq<string>): seq<Entry>
  {
    if columns == [] then []
    else InsertPath(BuildSpec(columns[..|columns| - 1], values), Split(columns[|columns| - 1], Delimiter), values)
  }

  /** `buildColumnTree(columns, values)` (src/components/PivotTable.jsx, lines
      4-29). */
  method BuildColumnTree(columns: seq<string>, values: seq<string>) returns (tree: Tree)
    ensures tree == Node(BuildSpec(columns, values))
  {
    tree := Node([]);
    for k := 0 to |columns|
      invariant tree == Node(BuildSpec(columns[..k], values))
    {
      var parts := Split(columns[k], Delimiter);
      assert columns[..k + 1][..k] == columns[..k];
      tree := Node(InsertPath(tree.children, parts, values));
    }
    assert columns[..|columns|] == columns;
  }

  /** `countLeafNodes`: 1 for `null`, the sum over the entries for an object. */
  function LeafCount(t: Tree): nat
    decreases t
  {
    match t
    case Leaf => 1
    case Node(ch) => LeafCountSeq(ch)
  }

  function LeafCountSeq(ch: seq<Entry>): nat
    decreases ch
  {
    if ch == [] then 0 else LeafCountSeq(ch[..|ch| - 1]) + LeafCount(ch[|ch| - 1].child)
  }

  /** `countLeafNodes(node)` (src/components/PivotTable.jsx, lines 63-70). */
  method CountLeafNodes(t: Tree) returns (count: nat)
    ensures count == LeafCount(t)
    decreases t
  {
    if t.Leaf? {
      return 1;
    }
    var ch := t.children;
    count := 0;
    for k := 0 to |ch|
      invariant count == LeafCountSeq(ch[..k])
    {
      var c := CountLeafNodes(ch[k].child);
      assert ch[..k + 1][..k] == ch[..k];
      count := count + c;
    }
    assert ch[..|ch|] == ch;
  }

  /** `getMaxDepth` (src/components/PivotTable.jsx, lines 31-34): 0 for `null`,
      one more than the deepest entry (or 1) for an object. */
  function MaxDepth(t: Tree): (d: nat)
    ensures t.Node? ==> d >= 1
    decreases t
  {
    match t
    case Leaf => 0
    case Node(ch) => 1 + MaxChildDepth(ch)
  }

  /** `Math.max(0, ...entries.map(getMaxDepth))`. */
  function MaxChildDepth(ch: seq<Entry>): nat
    decreases ch
  {
    if ch == [] then 0
    else
      var m := MaxChildDepth(ch[..|ch| - 1]);
      var d := MaxDepth(ch[|ch| - 1].child);
      if d > m then d else m
  }

  /** Every column key splits into `n` segments. */
  predicate Uniform(columns: seq<string>, n: nat)
  {
    forall i :: 0 <= i < |columns| ==> |Split(columns[i], Delimiter)| == n
  }

  /** The shape of a tree built from `k`-segment keys: at depth `k` the
      entries are exactly the value leaves; above, every entry is an object
      with distinct keys, non-empty except just above the value leaves. */
  predicate Layered(ch: seq<Entry>, k: nat, values: seq<string>)
    decreases ch
  {
    if k == 0 then ch == LeafEntries(values)
    else
      DistinctKeys(ch) &&
      forall i :: 0 <= i < |ch| ==>
        ch[i].child.Node? && (k > 1 ==> |ch[i].child.children| > 0) && Layered(ch[i].child.children, k - 1, values)
  }

  /** The path `p` of segments leads through objects from these entries. */
  predicate HasPath(ch: seq<Entry>, p: seq<string>)
    decreases |p|
  {
    |p| >= 1 && match Lookup(ch, p[0]) {
      case Some(Node(c)) => |p| == 1 || HasPath(c, p[1..])
      case _ => false
    }
  }

  /** The entries of the object the path `p` leads to. */
  function EntriesAt(ch: seq<Entry>, p: seq<string>): seq<Entry>
    requires HasPath(ch, p)
    decreases |p|
  {
    var c := Lookup(ch, p[0]).value.children;
    if |p| == 1 then c else EntriesAt(c, p[1..])
  }

  /** Setting the value leaves on a fresh object gives exactly the value leaves. */
  lemma {:induction false} SetNullsFresh(values: seq<string>, k: nat)
    requires Distinct(values) && k <= |values|
    ensures SetNulls([], values[..k]) == LeafEntries(values[..k])
  {
    if k > 0 {
      SetNullsFresh(values, k - 1);
      var prev := LeafEntries(values[..k - 1]);
      var v := values[k - 1];
      assert values[..k][..k - 1] == values[..k - 1] && values[..k][k - 1] == v;
      assert SetNulls([], values[..k]) == Put(prev, v, Leaf);
      FreshLeaf(values, k);
      LeafEntriesSnoc(values, k);
    }
  }

  /** The `k`-th value field is not among the ones before it. */
  lemma FreshLeaf(values: seq<string>, k: nat)
    requires Distinct(values) && 1 <= k <= |values|
    ensures Find(LeafEntries(values[..k - 1]), values[k - 1]).None?
  {
    var prev := LeafEntries(values[..k - 1]);
    forall i | 0 <= i < |prev| ensures prev[i].key != values[k - 1] {
      assert prev[i].key == values[i];
    }
  }

  /** The leaves of one more value field. */
  lemma LeafEntriesSnoc(values: seq<string>, k: nat)
    requires 1 <= k <= |values|
    ensures LeafEntries(values[..k]) == LeafEntries(values[..k - 1]) + [Entry(values[k - 1], Leaf)]
  {
  }

  /** Setting the value leaves again on an object holding exactly them changes nothing. */
  lemma {:induction false} SetNullsAgain(values: seq<string>, k: nat)
    requires Distinct(values) && k <= |values|
    ensures SetNulls(LeafEntries(values), values[..k]) == LeafEntries(values)
  {
    if k > 0 {
      SetNullsAgain(values, k - 1);
      assert values[..k][..k - 1] == values[..k - 1];
      var prev := LeafEntries(values);
      FindFirst(prev, values[k - 1], k - 1);
      assert prev[k - 1 := Entry(values[k - 1], Leaf)] == prev;
    }
  }

  lemma SetNullsLeaves(ch: seq<Entry>, values: seq<string>)
    requires Distinct(values) && (ch == [] || ch == LeafEntries(values))
    ensures SetNulls(ch, values) == LeafEntries(values)
  {
    assert values[..|values|] == values;
    if ch == [] {
      SetNullsFresh(values, |values|);
    } else {
      SetNullsAgain(values, |values|);
    }
  }

  /** Setting an entry to an object of the next layer's shape keeps the shape. */
  lemma PutLayered(ch: seq<Entry>, k: string, t: Tree, n: nat, values: seq<string>)
    requires n >= 1 && Layered(ch, n, values)
    requires t.Node? && (n > 1 ==> |t.children| > 0) && Layered(t.children, n - 1, values)
    ensures Layered(Put(ch, k, t), n, values)
  {
    PutLookup(ch, k, t);
    var r := Put(ch, k, t);
    forall i | 0 <= i < |r|
      ensures r[i].child.Node? && (n > 1 ==> |r[i].child.children| > 0) && Layered(r[i].child.children, n - 1, values)
    {
      if r[i] != Entry(k, t) {
        assert r[i] == ch[i];
      }
    }
  }

  /** In a layered tree, key `k` is absent or holds an object, and that
      object is layered one level less. */
  lemma LookupLayered(ch: seq<Entry>, k: string, n: nat, values: seq<string>)
    requires n >= 1 && Layered(ch, n, values)
    ensures Lookup(ch, k) == None || Lookup(ch, k) == Some(Node(SubBefore(ch, k)))
    ensures Lookup(ch, k).Some? ==> Layered(SubBefore(ch, k), n - 1, values)
    ensures Lookup(ch, k).None? ==> SubBefore(ch, k) == []
  {
    match Find(ch, k)
    case Some(i) =>
      assert Layered(ch[i].child.children, n - 1, values);
    case None =>
  }

  /** Inserting an `n`-segment key keeps the shape of a tree of `n`-segment
      keys. */
  lemma {:induction false} InsertLayered(ch: seq<Entry>, p: seq<string>, values: seq<string>)
    requires Distinct(values) && |p| >= 1 && Layered(ch, |p|, values)
    ensures Layered(InsertPath(ch, p, values), |p|, values)
    decreases |p|
  {
    var b := SubBefore(ch, p[0]);
    LookupLayered(ch, p[0], |p|, values);
    InsertPathPut(ch, p, values);
    if |p| == 1 {
      SetNullsLeaves(b, values);
    } else {
      InsertLayered(b, p[1..], values);
    }
    PutLayered(ch, p[0], Node(SubAfter(ch, p, values)), |p|, values);
  }

  /** The object under key `k` that an insertion walks into: the existing
      object, or a fresh one. */
  function SubBefore(ch: seq<Entry>, k: string): seq<Entry>
  {
    match Lookup(ch, k)
    case Some(Node(c)) => c
    case _ => []
  }

  /** The object an insertion leaves under the first segment of its key. */
  function SubAfter(ch: seq<Entry>, p: seq<string>, values: seq<string>): seq<Entry>
    requires |p| >= 1
  {
    if |p| == 1 then SetNulls(SubBefore(ch, p[0]), values) else InsertPath(SubBefore(ch, p[0]), p[1..], values)
  }

  /** An insertion sets the first segment's entry to the object below it. */
  lemma InsertPathPut(ch: seq<Entry>, p: seq<string>, values: seq<string>)
    requires |p| >= 1
    ensures InsertPath(ch, p, values) == Put(ch, p[0], Node(SubAfter(ch, p, values)))
    ensures Lookup(InsertPath(ch, p, values), p[0]) == Some(Node(SubAfter(ch, p, values)))
    ensures forall k :: k != p[0] ==> Lookup(InsertPath(ch, p, values), k) == Lookup(ch, k)
  {
    PutLookup(ch, p[0], Node(SubAfter(ch, p, values)));
  }

  /** A path of two or more segments goes on through the object under its
      first segment. */
  lemma HasPathStep(ch: seq<Entry>, q: seq<string>)
    requires |q| >= 2
    ensures HasPath(ch, q) <==> HasPath(SubBefore(ch, q[0]), q[1..])
  {
    assert Lookup([], q[1..][0]).None?;
  }

  /** Paths through an entry set to object `a`, where the object was `b`
      before, are the old paths and `p` when that holds one level down. */
  lemma PathThrough(r: seq<Entry>, ch: seq<Entry>, p: seq<string>, q: seq<string>, a: seq<Entry>, b: seq<Entry>)
    requires |p| >= 2 && |q| == |p| && q[0] == p[0]
    requires Lookup(r, q[0]) == Some(Node(a)) && SubBefore(ch, q[0]) == b
    requires HasPath(a, q[1..]) <==> HasPath(b, q[1..]) || q[1..] == p[1..]
    ensures HasPath(r, q) <==> HasPath(ch, q) || q == p
  {
    HasPathStep(r, q);
    HasPathStep(ch, q);
    assert q == p <==> q[1..] == p[1..] by {
      assert q == [q[0]] + q[1..] && p == [p[0]] + p[1..];
    }
  }

  /** The step of `InsertHasPath` for keys of two or more segments, given the
      property one level down. */
  lemma InsertHasPathDeep(ch: seq<Entry>, p: seq<string>, q: seq<string>, values: seq<string>)
    requires |p| >= 2 && |q| == |p| && q[0] == p[0]
    requires HasPath(SubAfter(ch, p, values), q[1..]) <==> HasPath(SubBefore(ch, p[0]), q[1..]) || q[1..] == p[1..]
    ensures HasPath(InsertPath(ch, p, values), q) <==> HasPath(ch, q) || q == p
  {
    InsertPathPut(ch, p, values);
    PathThrough(InsertPath(ch, p, values), ch, p, q, SubAfter(ch, p, values), SubBefore(ch, p[0]));
  }

  /** The step of `InsertHasPath` for a one-segment key or a path that leaves
      the key at its first segment. */
  lemma InsertHasPathShallow(ch: seq<Entry>, p: seq<string>, q: seq<string>, values: seq<string>)
    requires |p| >= 1 && |q| == |p| && (q[0] != p[0] || |p| == 1)
    ensures HasPath(InsertPath(ch, p, values), q) <==> HasPath(ch, q) || q == p
  {
    InsertPathPut(ch, p, values);
    if q[0] != p[0] {
      assert q != p;
    } else {
      assert q == p by {
        assert q == [q[0]] && p == [p[0]];
      }
    }
  }

  /** After inserting `p`, the `|p|`-segment paths are the old ones and `p`. */
  lemma {:induction false} InsertHasPath(ch: seq<Entry>, p: seq<string>, q: seq<string>, values: seq<string>)
    requires |p| >= 1 && |q| == |p|
    ensures HasPath(InsertPath(ch, p, values), q) <==> HasPath(ch, q) || q == p
    decreases |p|
  {
    if q[0] != p[0] || |p| == 1 {
      InsertHasPathShallow(ch, p, q, values);
    } else {
      InsertHasPath(SubBefore(ch, p[0]), p[1..], q[1..], values);
      InsertHasPathDeep(ch, p, q, values);
    }
  }

  /** Replacing one entry changes the count by the difference of the two. */
  lemma {:induction false} LeafCountUpdate(ch: seq<Entry>, i: nat, e: Entry)
    requires i < |ch|
    ensures LeafCountSeq(ch[i := e]) + LeafCount(ch[i].child) == LeafCountSeq(ch) + LeafCount(e.child)
    decreases |ch|
  {
    var n := |ch|;
    if i == n - 1 {
      assert ch[i := e][..n - 1] == ch[..n - 1];
    } else {
      LeafCountUpdate(ch[..n - 1], i, e);
      assert ch[i := e][..n - 1] == ch[..n - 1][i := e];
    }
  }

  /** `node[k] = t` changes the count by the difference of `t` and the old entry. */
  lemma PutCount(ch: seq<Entry>, k: string, t: Tree)
    ensures LeafCountSeq(Put(ch, k, t)) + (match Lookup(ch, k) { case Some(o) => LeafCount(o) case None => 0 })
      == LeafCountSeq(ch) + LeafCount(t)
  {
    match Find(ch, k)
    case Some(i) =>
      LeafCountUpdate(ch, i, Entry(k, t));
    case None =>
      assert (ch + [Entry(k, t)])[..|ch|] == ch;
  }

  /** A node holding the value leaves counts one per value field. */
  lemma {:induction false} LeafEntriesCount(values: seq<string>)
    ensures LeafCountSeq(LeafEntries(values)) == |values|
    decreases |values|
  {
    if values != [] {
      LeafEntriesCount(values[..|values| - 1]);
      assert LeafEntries(values)[..|values| - 1] == LeafEntries(values[..|values| - 1]);
    }
  }

  /** Setting key `k` of a layered tree to object `a` changes the count by
      the difference of `a` and the object it replaces. */
  lemma CountThrough(ch: seq<Entry>, k: string, a: seq<Entry>, n: nat, values: seq<string>)
    requires n >= 1 && Layered(ch, n, values)
    ensures LeafCountSeq(Put(ch, k, Node(a))) + LeafCountSeq(SubBefore(ch, k)) == LeafCountSeq(ch) + LeafCountSeq(a)
  {
    PutCount(ch, k, Node(a));
    LookupLayered(ch, k, n, values);
  }

  /** Inserting a new `n`-segment key adds one leaf per value field; inserting
      a key already present adds nothing. */
  lemma {:induction false} InsertCount(ch: seq<Entry>, p: seq<string>, values: seq<string>)
    requires Distinct(values) && |p| >= 1 && Layered(ch, |p|, values)
    ensures LeafCountSeq(InsertPath(ch, p, values)) == LeafCountSeq(ch) + (if HasPath(ch, p) then 0 else |values|)
    decreases |p|
  {
    var b := SubBefore(ch, p[0]);
    var a := SubAfter(ch, p, values);
    InsertPathPut(ch, p, values);
    LookupLayered(ch, p[0], |p|, values);
    CountThrough(ch, p[0], a, |p|, values);
    if |p| == 1 {
      SetNullsLeaves(b, values);
      LeafEntriesCount(values);
      assert HasPath(ch, p) <==> Lookup(ch, p[0]).Some?;
    } else {
      InsertCount(b, p[1..], values);
      HasPathStep(ch, p);
      assert b == [] ==> !HasPath(b, p[1..]);
    }
  }

  /** The tree of `n`-segment keys has the `n`-level shape. */
  lemma {:induction false} BuildLayered(columns: seq<string>, values: seq<string>, n: nat)
    requires Distinct(values) && n >= 1 && Uniform(columns, n)
    ensures Layered(BuildSpec(columns, values), n, values)
    decreases |columns|
  {
    if columns != [] {
      var init := columns[..|columns| - 1];
      UniformInit(columns, n);
      BuildLayered(init, values, n);
      InsertLayered(BuildSpec(init, values), Split(columns[|columns| - 1], Delimiter), values);
    }
  }

  /** Dropping the last key keeps every key `n` segments long. */
  lemma UniformInit(columns: seq<string>, n: nat)
    requires columns != [] && Uniform(columns, n)
    ensures Uniform(columns[..|columns| - 1], n)
  {
    var init := columns[..|columns| - 1];
    assert forall i :: 0 <= i < |init| ==> init[i] == columns[i];
  }

  /** Dropping the last key keeps the keys distinct. */
  lemma DistinctInit(columns: seq<string>)
    requires columns != [] && Distinct(columns)
    ensures Distinct(columns[..|columns| - 1])
  {
    var init := columns[..|columns| - 1];
    assert forall i :: 0 <= i < |init| ==> init[i] == columns[i];
  }

  /** The `n`-segment paths of the tree are exactly the split column keys. */
  lemma {:induction false} BuildHasPath(columns: seq<string>, values: seq<string>, q: seq<string>)
    requires |q| >= 1 && Uniform(columns, |q|)
    ensures HasPath(BuildSpec(columns, values), q) <==>
      exists i :: 0 <= i < |columns| && Split(columns[i], Delimiter) == q
    decreases |columns|
  {
    if columns != [] {
      var m := |columns| - 1;
      var init := columns[..m];
      UniformInit(columns, |q|);
      BuildHasPath(init, values, q);
      var p := Split(columns[m], Delimiter);
      InsertHasPath(BuildSpec(init, values), p, q, values);
      SplitAmongSnoc(columns, init, q);
    }
  }

  /** Some key of a non-empty list splits into `q` exactly when one of the
      earlier keys does or the last one does. */
  lemma SplitAmongSnoc(columns: seq<string>, init: seq<string>, q: seq<string>)
    requires columns != [] && init == columns[..|columns| - 1]
    ensures (exists i :: 0 <= i < |columns| && Split(columns[i], Delimiter) == q)
      <==> (exists i :: 0 <= i < |init| && Split(init[i], Delimiter) == q)
           || Split(columns[|columns| - 1], Delimiter) == q
  {
    if exists i :: 0 <= i < |columns| - 1 && Split(columns[i], Delimiter) == q {
      var i :| 0 <= i < |columns| - 1 && Split(columns[i], Delimiter) == q;
      assert init[i] == columns[i];
    }
    if exists i :: 0 <= i < |init| && Split(init[i], Delimiter) == q {
      var i :| 0 <= i < |init| && Split(init[i], Delimiter) == q;
      assert columns[i] == init[i];
    }
  }

  /** The last of distinct column keys is not yet in the tree of the ones
      before it. */
  lemma LastKeyNew(columns: seq<string>, values: seq<string>, n: nat)
    requires Distinct(columns) && |columns| >= 1 && n >= 1 && Uniform(columns, n)
    ensures !HasPath(BuildSpec(columns[..|columns| - 1], values), Split(columns[|columns| - 1], Delimiter))
  {
    var m := |columns| - 1;
    var init := columns[..m];
    var p := Split(columns[m], Delimiter);
    UniformInit(columns, |p|);
    BuildHasPath(init, values, p);
    forall i | 0 <= i < |init| ensures Split(init[i], Delimiter) != p {
      JoinSplit(init[i], Delimiter);
      JoinSplit(columns[m], Delimiter);
      assert init[i] == columns[i] != columns[m];
    }
  }

  /** One block of `v` more after `a` blocks makes `c = a + 1` blocks. */
  lemma MulSucc(total: int, prev: int, a: nat, c: nat, v: nat)
    requires c == a + 1 && prev == a * v && total == prev + v
    ensures total == c * v
  {
  }

  /** With distinct keys of `n` segments and distinct value fields, the tree
      has one leaf per (column key, value field) pair. */
  lemma {:induction false} BuildCount(columns: seq<string>, values: seq<string>, n: nat)
    requires Distinct(values) && Distinct(columns) && n >= 1 && Uniform(columns, n)
    ensures LeafCountSeq(BuildSpec(columns, values)) == |columns| * |values|
    decreases |columns|
  {
    if columns != [] {
      var m := |columns| - 1;
      var init := columns[..m];
      UniformInit(columns, n);
      DistinctInit(columns);
      BuildCount(init, values, n);
      BuildCountStep(columns, values, n);
      MulSucc(LeafCountSeq(BuildSpec(columns, values)), LeafCountSeq(BuildSpec(init, values)), |init|, |columns|, |values|);
    }
  }

  /** Adding the last of distinct keys adds one leaf per value field. */
  lemma BuildCountStep(columns: seq<string>, values: seq<string>, n: nat)
    requires Distinct(values) && Distinct(columns) && n >= 1 && Uniform(columns, n) && columns != []
    ensures LeafCountSeq(BuildSpec(columns, values)) == LeafCountSeq(BuildSpec(columns[..|columns| - 1], values)) + |values|
  {
    var m := |columns| - 1;
    var before := BuildSpec(columns[..m], values);
    var p := Split(columns[m], Delimiter);
    assert |p| == n;
    assert Layered(before, n, values) by {
      UniformInit(columns, n);
      BuildLayered(columns[..m], values, n);
    }
    assert !HasPath(before, p) by {
      LastKeyNew(columns, values, n);
    }
    InsertCount(before, p, values);
  }

  /** Under the node of every full key the entries are exactly the value leaves. */
  lemma {:induction false} LayeredEntriesAt(ch: seq<Entry>, q: seq<string>, values: seq<string>)
    requires |q| >= 1 && Layered(ch, |q|, values) && HasPath(ch, q)
    ensures EntriesAt(ch, q) == LeafEntries(values)
    decreases |q|
  {
    var i := Find(ch, q[0]).value;
    assert Layered(ch[i].child.children, |q| - 1, values);
    if |q| > 1 {
      LayeredEntriesAt(ch[i].child.children, q[1..], values);
    }
  }

  /** A non-empty list of entries, all of depth `d`, has depth `d`. */
  lemma {:induction false} MaxChildUniform(ch: seq<Entry>, d: nat)
    requires |ch| > 0 && forall i :: 0 <= i < |ch| ==> MaxDepth(ch[i].child) == d
    ensures MaxChildDepth(ch) == d
    decreases |ch|
  {
    if |ch| > 1 {
      MaxChildUniform(ch[..|ch| - 1], d);
    }
  }

  /** A tree of `k`-segment keys is `k + 1` deep, or 1 deep when empty,
      whether or not there are value fields. */
  lemma {:induction false} LayeredDepth(ch: seq<Entry>, k: nat, values: seq<string>)
    requires Layered(ch, k, values)
    ensures MaxDepth(Node(ch)) == if ch == [] then 1 else k + 1
    decreases k
  {
    if ch != [] {
      if k == 0 {
        MaxChildUniform(ch, 0);
      } else {
        forall i | 0 <= i < |ch| ensures MaxDepth(ch[i].child) == k {
          LayeredDepth(ch[i].child.children, k - 1, values);
        }
        MaxChildUniform(ch, k);
      }
    }
  }

  /** The column tree of distinct `n`-segment keys: every key's path is
      present, with exactly the value leaves under it; it is `n + 1` deep (1
      when there are no keys) and has `|columns| * |values|` leaves. */
  lemma ColumnTreeShape(columns: seq<string>, values: seq<string>, n: nat)
    requires Distinct(values) && Distinct(columns) && n >= 1 && Uniform(columns, n)
    ensures var t := BuildSpec(columns, values);
      Layered(t, n, values)
      && LeafCountSeq(t) == |columns| * |values|
      && MaxDepth(Node(t)) == (if columns == [] then 1 else n + 1)
      && forall i :: 0 <= i < |columns| ==>
           HasPath(t, Split(columns[i], Delimiter)) && EntriesAt(t, Split(columns[i], Delimiter)) == LeafEntries(values)
  {
    var t := BuildSpec(columns, values);
    BuildLayered(columns, values, n);
    BuildCount(columns, values, n);
    LayeredDepth(t, n, values);
    forall i | 0 <= i < |columns|
      ensures HasPath(t, Split(columns[i], Delimiter)) && EntriesAt(t, Split(columns[i], Delimiter)) == LeafEntries(values)
    {
      BuildHasPath(columns, values, Split(columns[i], Delimiter));
      LayeredEntriesAt(t, Split(columns[i], Delimiter), values);
    }
  }
}
