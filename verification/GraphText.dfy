/** When the serializer returns a text on a heap of objects, and which text:
    the one of the finite tree the graph unfolds to. */
module GraphText {
  import opened Wrappers
  import opened Sequences
  import opened Utf16
  import opened Json
  import opened Values
  import opened ObjectGraph

  // ----- reachability, without reference to the serializer -----

  function Children(n: Node): (r: seq<Value>)
    ensures |r| == if n.ArrayNode? then |n.items| else |n.props|
  {
    match n
    case ArrayNode(items) => items
    case ObjectNode(props) => seq(|props|, i requires 0 <= i < |props| => props[i].value)
  }

  ghost predicate DefinedChild(h: Heap, r: Ref, v: Value) {
    r in h && v in Children(h[r]) && v != Prim(Undefined)
  }

  /** `p` follows defined members from `v` on. */
  ghost predicate Route(h: Heap, v: Value, p: seq<Ref>) {
    |p| > 0 && v == Pointer(p[0]) && forall i :: 0 <= i < |p| - 1 ==> DefinedChild(h, p[i], Pointer(p[i + 1]))
  }

  ghost predicate EndsBadly(h: Heap, p: seq<Ref>)
    requires |p| > 0
  {
    exists a: Atom :: DefinedChild(h, p[|p| - 1], Prim(a)) && !a.Printable()
  }

  ghost predicate ReachesCycle(h: Heap, v: Value) {
    exists p: seq<Ref> :: Route(h, v, p) && !Distinct(p)
  }

  /** A function, symbol, bigint or invalid date is reachable. */
  ghost predicate ReachesUnprintable(h: Heap, v: Value) {
    (v.Prim? && !v.a.Printable()) || exists p: seq<Ref> :: Route(h, v, p) && EndsBadly(h, p)
  }

  // ----- success of a node is success of its defined children -----

  /** Some attempt on `v` below `stack` returns a text; the path only matters to the error message. */
  ghost predicate Succeeds(h: Heap, v: Value, stack: set<Ref>)
    requires Closed(h) && InHeap(h, v)
  {
    exists q: Text :: Canonical(h, v, stack, q).Success?
  }

  lemma {:induction false} ItemsSucceed(h: Heap, items: seq<Value>, stack: set<Ref>, path: Text, index: nat)
    requires Closed(h) && forall v :: v in items ==> InHeap(h, v)
    requires CanonicalItems(h, items, stack, path, index).Success?
    ensures forall v :: v in items ==> Succeeds(h, v, stack)
    decreases items
  {
    if items != [] {
      ItemsSucceed(h, items[1..], stack, path, index + 1);
      forall v | v in items
        ensures Succeeds(h, v, stack)
      {
        if v == items[0] {
          assert Canonical(h, v, stack, ItemPath(path, index)).Success?;
        } else {
          assert v in items[1..];
        }
      }
    }
  }

  lemma {:induction false} PropsSucceed(h: Heap, props: seq<Property>, keys: seq<Text>, stack: set<Ref>, path: Text)
    requires Closed(h) && forall p :: p in props ==> InHeap(h, p.value)
    requires CanonicalProps(h, props, keys, stack, path).Success?
    ensures forall k :: k in keys && HasProp(props, k) ==>
      Succeeds(h, PropValue(props, k), stack)
    decreases keys
  {
    if keys != [] {
      PropsSucceed(h, props, keys[1..], stack, path);
      forall k | k in keys && HasProp(props, k)
        ensures Succeeds(h, PropValue(props, k), stack)
      {
        if k == keys[0] {
          assert Canonical(h, PropValue(props, k), stack, PropPath(path, k)).Success?;
        } else {
          assert k in keys[1..];
        }
      }
    }
  }

  lemma {:induction false} PropValueAt(props: seq<Property>, i: nat)
    requires Distinct(PropKeys(props)) && i < |props|
    ensures props[i].key in PropKeys(props)
    ensures PropValue(props, props[i].key) == props[i].value
  {
    assert PropKeys(props)[i] == props[i].key;
    if i > 0 {
      assert PropKeys(props)[0] != PropKeys(props)[i];
      PropValueAt(props[1..], i - 1);
    }
  }

  lemma ChildrenSucceed(h: Heap, r: Ref, stack: set<Ref>, path: Text, v: Value)
    requires Closed(h) && r in h
    requires Canonical(h, Pointer(r), stack, path).Success?
    requires DefinedChild(h, r, v)
    ensures r !in stack && InHeap(h, v) && Succeeds(h, v, stack + {r})
  {
    assert ClosedNode(h, h[r]);
    match h[r]
    case ArrayNode(items) =>
      ItemsSucceed(h, Defined(items), stack + {r}, path, 0);
    case ObjectNode(props) =>
      var keys := SortKeys(PropKeys(props));
      SortKeysSorts(PropKeys(props));
      PropsSucceed(h, props, keys, stack + {r}, path);
      var i :| 0 <= i < |props| && Children(h[r])[i] == v;
      PropValueAt(props, i);
  }

  // ----- a cycle or an unprintable value makes every attempt fail -----

  lemma {:induction false} BlockedRouteFails(h: Heap, v: Value, stack: set<Ref>, path: Text, p: seq<Ref>)
    requires Closed(h) && InHeap(h, v) && Route(h, v, p)
    requires !Distinct(p) || EndsBadly(h, p) || exists k :: 0 <= k < |p| && p[k] in stack
    ensures Canonical(h, v, stack, path).Failure?
    decreases |p|
  {
    if Canonical(h, v, stack, path).Success? {
      var r := p[0];
      if |p| == 1 {
        var a: Atom :| DefinedChild(h, r, Prim(a)) && !a.Printable();
        ChildrenSucceed(h, r, stack, path, Prim(a));
        assert false;
      } else {
        var w, tail := Pointer(p[1]), p[1..];
        assert DefinedChild(h, p[0], w);
        ChildrenSucceed(h, r, stack, path, w);
        var q: Text :| Canonical(h, w, stack + {r}, q).Success?;
        RouteTail(h, v, stack, p);
        BlockedRouteFails(h, w, stack + {r}, q, tail);
        assert false;
      }
    }
  }

  lemma RouteTail(h: Heap, v: Value, stack: set<Ref>, p: seq<Ref>)
    requires Route(h, v, p) && |p| > 1 && p[0] !in stack
    requires !Distinct(p) || EndsBadly(h, p) || exists k :: 0 <= k < |p| && p[k] in stack
    ensures var tail := p[1..];
      Route(h, Pointer(p[1]), tail) &&
      (!Distinct(tail) || EndsBadly(h, tail) || exists k :: 0 <= k < |tail| && tail[k] in stack + {p[0]})
  {
    var tail := p[1..];
    forall i | 0 <= i < |tail| - 1
      ensures DefinedChild(h, tail[i], Pointer(tail[i + 1]))
    {
      assert DefinedChild(h, p[i + 1], Pointer(p[i + 1 + 1]));
    }
    if !Distinct(p) {
      var i, j :| 0 <= i < j < |p| && p[i] == p[j];
      assert tail[j - 1] == p[j];
      if i > 0 { assert tail[i - 1] == p[i]; }
    } else if EndsBadly(h, p) {
      assert tail[|tail| - 1] == p[|p| - 1];
    } else {
      var k :| 0 <= k < |p| && p[k] in stack;
      assert tail[k - 1] == p[k];
    }
  }

  // ----- a failure comes from a cycle or an unprintable value -----

  predicate Faulty(a: Atom, f: Fault) {
    !a.Printable() && if a.InvalidDate? then f.InvalidTime? else f.Unsupported? && f.kind == a
  }

  /** What the fault of a failing attempt stands for: a way back into the stack or
      around a cycle, or a way to the very value it names. */
  ghost predicate Blames(h: Heap, v: Value, stack: set<Ref>, p: seq<Ref>, f: Fault) {
    if f.Circular? then Route(h, v, p) && (p[|p| - 1] in stack || !Distinct(p))
    else exists a: Atom :: Faulty(a, f) && if p == [] then v == Prim(a) else Route(h, v, p) && EndsIn(h, p, a)
  }

  ghost predicate EndsIn(h: Heap, p: seq<Ref>, a: Atom)
    requires |p| > 0
  {
    DefinedChild(h, p[|p| - 1], Prim(a))
  }

  lemma {:induction false} FailureBlamed(h: Heap, v: Value, stack: set<Ref>, path: Text) returns (p: seq<Ref>)
    requires Closed(h) && InHeap(h, v)
    requires Canonical(h, v, stack, path).Failure?
    ensures Blames(h, v, stack, p, Canonical(h, v, stack, path).error)
    decreases h.Keys - stack, 0
  {
    if v.Prim? {
      p := [];
      assert Faulty(v.a, PrimText(v.a, path).error);
    } else if v.r in stack {
      p := [v.r];
    } else {
      var w: Value, q: seq<Ref>;
      assert ClosedNode(h, h[v.r]);
      match h[v.r] {
        case ArrayNode(items) =>
          w, q := ItemFailureBlamed(h, Defined(items), stack + {v.r}, path, 0);
        case ObjectNode(props) =>
          var k;
          k, q := PropFailureBlamed(h, props, SortKeys(PropKeys(props)), stack + {v.r}, path);
          w := PropValue(props, k);
          var i :| 0 <= i < |props| && props[i] == Property(k, w);
          assert Children(h[v.r])[i] == w;
      }
      p := [v.r] + q;
      BlamedOneUp(h, v.r, w, stack, q, Canonical(h, v, stack, path).error);
    }
  }

  lemma RouteOneUp(h: Heap, r: Ref, w: Value, q: seq<Ref>)
    requires DefinedChild(h, r, w) && Route(h, w, q)
    ensures Route(h, Pointer(r), [r] + q)
  {
    var p := [r] + q;
    forall i | 0 <= i < |p| - 1
      ensures DefinedChild(h, p[i], Pointer(p[i + 1]))
    {
      if i > 0 { assert DefinedChild(h, q[i - 1], Pointer(q[i - 1 + 1])); }
    }
  }

  lemma BlamedOneUp(h: Heap, r: Ref, w: Value, stack: set<Ref>, q: seq<Ref>, f: Fault)
    requires DefinedChild(h, r, w) && Blames(h, w, stack + {r}, q, f)
    ensures Blames(h, Pointer(r), stack, [r] + q, f)
  {
    var p := [r] + q;
    if q != [] {
      RouteOneUp(h, r, w, q);
    }
    if f.Circular? {
      if !Distinct(q) {
        var i, j :| 0 <= i < j < |q| && q[i] == q[j];
        assert p[i + 1] == p[j + 1];
      } else if q[|q| - 1] == r {
        assert p[0] == p[|p| - 1];
      }
    } else {
      var a: Atom :| Faulty(a, f) && if q == [] then w == Prim(a) else Route(h, w, q) && EndsIn(h, q, a);
      assert EndsIn(h, p, a);
    }
  }

  lemma {:induction false} ItemFailureBlamed(h: Heap, items: seq<Value>, stack: set<Ref>, path: Text, index: nat)
      returns (w: Value, q: seq<Ref>)
    requires Closed(h) && forall v :: v in items ==> InHeap(h, v)
    requires CanonicalItems(h, items, stack, path, index).Failure?
    ensures w in items && Blames(h, w, stack, q, CanonicalItems(h, items, stack, path, index).error)
    decreases h.Keys - stack, 1 + |items|
  {
    if Canonical(h, items[0], stack, ItemPath(path, index)).Failure? {
      w := items[0];
      q := FailureBlamed(h, w, stack, ItemPath(path, index));
    } else {
      w, q := ItemFailureBlamed(h, items[1..], stack, path, index + 1);
    }
  }

  lemma {:induction false} PropFailureBlamed(h: Heap, props: seq<Property>, keys: seq<Text>, stack: set<Ref>,
      path: Text)
      returns (k: Text, q: seq<Ref>)
    requires Closed(h) && forall p :: p in props ==> InHeap(h, p.value)
    requires CanonicalProps(h, props, keys, stack, path).Failure?
    ensures HasProp(props, k)
    ensures Blames(h, PropValue(props, k), stack, q, CanonicalProps(h, props, keys, stack, path).error)
    decreases h.Keys - stack, 1 + |keys|
  {
    k := keys[0];
    if HasProp(props, k) && Canonical(h, PropValue(props, k), stack, PropPath(path, k)).Failure? {
      q := FailureBlamed(h, PropValue(props, k), stack, PropPath(path, k));
    } else {
      k, q := PropFailureBlamed(h, props, keys[1..], stack, path);
    }
  }

  /** `a` is the value itself or reachable from it through defined members. */
  ghost predicate Reaches(h: Heap, v: Value, a: Atom) {
    v == Prim(a) || exists p: seq<Ref> :: Route(h, v, p) && EndsIn(h, p, a)
  }

  /** `canonicalize` throws exactly when a cycle or an unprintable value is
      reachable through defined members, and the error it throws is true. */
  lemma FailsIffBlocked(h: Heap, v: Value, path: Text)
    requires Closed(h) && InHeap(h, v)
    ensures Canonical(h, v, {}, path).Failure? <==> ReachesCycle(h, v) || ReachesUnprintable(h, v)
    ensures var r := Canonical(h, v, {}, path);
      r.Failure? ==>
        match r.error
        case Circular(_) => ReachesCycle(h, v)
        case Unsupported(_, a) => !a.Printable() && Reaches(h, v, a)
        case InvalidTime => Reaches(h, v, InvalidDate)
  {
    if Canonical(h, v, {}, path).Failure? {
      var p := FailureBlamed(h, v, {}, path);
      var f := Canonical(h, v, {}, path).error;
      if !f.Circular? {
        var a: Atom :| Faulty(a, f) && if p == [] then v == Prim(a) else Route(h, v, p) && EndsIn(h, p, a);
        assert Reaches(h, v, a);
        if p != [] { assert EndsBadly(h, p); }
      }
    } else if ReachesCycle(h, v) {
      var p: seq<Ref> :| Route(h, v, p) && !Distinct(p);
      BlockedRouteFails(h, v, {}, path, p);
      assert false;
    } else if v.Pointer? && ReachesUnprintable(h, v) {
      var p: seq<Ref> :| Route(h, v, p) && EndsBadly(h, p);
      BlockedRouteFails(h, v, {}, path, p);
      assert false;
    }
  }

  // ----- the text is the text of the tree unfolding -----

  /** `t` is the finite unfolding of `v`; shared objects appear once per use. */
  ghost predicate Unfolds(h: Heap, v: Value, t: Tree)
    decreases t
  {
    match t
    case Leaf(a) => v == Prim(a) && a.Printable()
    case Arr(ts) =>
      v.Pointer? && v.r in h && h[v.r].ArrayNode? && |h[v.r].items| == |ts| &&
      forall i :: 0 <= i < |ts| ==> Unfolds(h, h[v.r].items[i], ts[i])
    case Obj(ms) =>
      v.Pointer? && v.r in h && h[v.r].ObjectNode? && |h[v.r].props| == |ms| &&
      forall i :: 0 <= i < |ms| ==>
        h[v.r].props[i].key == ms[i].key && Unfolds(h, h[v.r].props[i].value, ms[i].value)
  }

  lemma {:induction false} UnfoldingPlain(h: Heap, v: Value, t: Tree)
    requires Closed(h) && Unfolds(h, v, t)
    ensures Plain(t)
    decreases t
  {
    match t
    case Leaf(a) =>
    case Arr(ts) =>
      forall i | 0 <= i < |ts| ensures Plain(ts[i]) {
        UnfoldingPlain(h, h[v.r].items[i], ts[i]);
      }
    case Obj(ms) =>
      assert ClosedNode(h, h[v.r]);
      assert PropKeys(h[v.r].props) == Keys(ms);
      forall i | 0 <= i < |ms| ensures Plain(ms[i].value) {
        UnfoldingPlain(h, h[v.r].props[i].value, ms[i].value);
      }
  }

  lemma {:induction false} UnfoldingUnique(h: Heap, v: Value, t: Tree, u: Tree)
    requires Unfolds(h, v, t) && Unfolds(h, v, u)
    ensures t == u
    decreases t
  {
    match t
    case Leaf(a) =>
    case Arr(ts) =>
      forall i | 0 <= i < |ts| ensures ts[i] == u.items[i] {
        UnfoldingUnique(h, h[v.r].items[i], ts[i], u.items[i]);
      }
      assert ts == u.items;
    case Obj(ms) =>
      forall i | 0 <= i < |ms| ensures ms[i] == u.members[i] {
        UnfoldingUnique(h, h[v.r].props[i].value, ms[i].value, u.members[i].value);
      }
      assert ms == u.members;
  }

  ghost predicate Finite(h: Heap, v: Value) {
    exists t :: Unfolds(h, v, t)
  }

  /** Every ancestor unfolds to a tree that properly contains `t`. */
  ghost predicate Above(h: Heap, stack: set<Ref>, t: Tree) {
    forall s :: s in stack ==> exists u :: Unfolds(h, Pointer(s), u) && t < u
  }

  lemma AboveChild(h: Heap, stack: set<Ref>, r: Ref, t: Tree, c: Tree)
    requires Above(h, stack, t) && Unfolds(h, Pointer(r), t) && c < t
    ensures r !in stack && Above(h, stack + {r}, c)
  {
    if r in stack {
      var u :| Unfolds(h, Pointer(r), u) && t < u;
      UnfoldingUnique(h, Pointer(r), t, u);
      assert false;
    }
    forall s | s in stack + {r}
      ensures exists u :: Unfolds(h, Pointer(s), u) && c < u
    {
      if s != r {
        var u :| Unfolds(h, Pointer(s), u) && t < u;
        assert c < u;
      }
    }
  }

  lemma AboveMembers(h: Heap, stack: set<Ref>, r: Ref, t: Tree)
    requires Above(h, stack, t) && Unfolds(h, Pointer(r), t) && t.Obj?
    ensures forall i :: 0 <= i < |t.members| ==> Above(h, stack + {r}, t.members[i].value)
  {
    forall i | 0 <= i < |t.members| ensures Above(h, stack + {r}, t.members[i].value) {
      AboveChild(h, stack, r, t, t.members[i].value);
    }
  }

  ghost predicate UnfoldsAll(h: Heap, vs: seq<Value>, ts: seq<Tree>) {
    |vs| == |ts| && forall i :: 0 <= i < |vs| ==> Unfolds(h, vs[i], ts[i])
  }

  lemma {:induction false} DefinedUnfolds(h: Heap, vs: seq<Value>, ts: seq<Tree>)
    requires UnfoldsAll(h, vs, ts)
    ensures UnfoldsAll(h, Defined(vs), Present(ts))
  {
    if vs != [] {
      assert Unfolds(h, vs[0], ts[0]);
      DefinedUnfolds(h, vs[1..], ts[1..]);
    }
  }

  lemma {:induction false} LookupUnfolds(h: Heap, props: seq<Property>, ms: seq<Member>, k: Text)
    requires |props| == |ms|
    requires forall i :: 0 <= i < |ms| ==> props[i].key == ms[i].key && Unfolds(h, props[i].value, ms[i].value)
    ensures k in PropKeys(props) <==> k in Keys(ms)
    ensures k in Keys(ms) ==> Unfolds(h, PropValue(props, k), Lookup(ms, k))
  {
    assert PropKeys(props) == Keys(ms);
    if ms != [] && ms[0].key != k {
      forall i | 0 <= i < |ms[1..]|
        ensures props[1..][i].key == ms[1..][i].key && Unfolds(h, props[1..][i].value, ms[1..][i].value)
      {
        assert Unfolds(h, props[i + 1].value, ms[i + 1].value);
      }
      LookupUnfolds(h, props[1..], ms[1..], k);
    }
  }

  lemma {:induction false} UnfoldingText(h: Heap, v: Value, t: Tree, stack: set<Ref>, path: Text)
    requires Closed(h) && InHeap(h, v) && Unfolds(h, v, t) && Plain(t) && Above(h, stack, t)
    ensures Canonical(h, v, stack, path) == Success(TreeText(t))
    decreases t
  {
    if v.Pointer? {
      NotItsOwnAncestor(h, stack, v.r, t);
      if t.Arr? { ArrayText(h, v.r, t, stack, path); } else { ObjectText(h, v.r, t, stack, path); }
    }
  }

  lemma {:induction false} ArrayText(h: Heap, r: Ref, t: Tree, stack: set<Ref>, path: Text)
    requires Closed(h) && Unfolds(h, Pointer(r), t) && Plain(t) && Above(h, stack, t)
    requires t.Arr? && r !in stack
    ensures Canonical(h, Pointer(r), stack, path) == Success(TreeText(t))
    decreases t, 1
  {
    assert ClosedNode(h, h[r]);
    DefinedUnfolds(h, h[r].items, t.items);
    PresentPlain(t);
    forall x | x in Present(t.items) ensures Above(h, stack + {r}, x) {
      AboveChild(h, stack, r, t, x);
    }
    ItemsText(h, Defined(h[r].items), t, Present(t.items), stack + {r}, path, 0);
  }

  lemma {:induction false} ObjectText(h: Heap, r: Ref, t: Tree, stack: set<Ref>, path: Text)
    requires Closed(h) && Unfolds(h, Pointer(r), t) && Plain(t) && Above(h, stack, t)
    requires t.Obj? && r !in stack
    ensures Canonical(h, Pointer(r), stack, path) == Success(TreeText(t))
    decreases t, 1
  {
    assert ClosedNode(h, h[r]);
    assert PropKeys(h[r].props) == Keys(t.members);
    AboveMembers(h, stack, r, t);
    PropsText(h, h[r].props, t, SortKeys(Keys(t.members)), stack + {r}, path);
  }

  lemma NotItsOwnAncestor(h: Heap, stack: set<Ref>, r: Ref, t: Tree)
    requires Above(h, stack, t) && Unfolds(h, Pointer(r), t)
    ensures r !in stack
  {
    if r in stack {
      var u :| Unfolds(h, Pointer(r), u) && t < u;
      UnfoldingUnique(h, Pointer(r), t, u);
      assert false;
    }
  }

  lemma {:induction false} ItemsText(h: Heap, vs: seq<Value>, t: Tree, ts: seq<Tree>, stack: set<Ref>, path: Text,
      index: nat)
    requires Closed(h) && UnfoldsAll(h, vs, ts) && forall v :: v in vs ==> InHeap(h, v)
    requires t.Arr? && forall x :: x in ts ==> x in t.items && Plain(x) && !Missing(x) && Above(h, stack, x)
    ensures CanonicalItems(h, vs, stack, path, index) == Success(WriteItems(NormalItems(t, ts)))
    decreases t, 0, |ts|
  {
    if ts != [] {
      assert ts[0] in ts && ts[0] in t.items && Unfolds(h, vs[0], ts[0]);
      UnfoldingText(h, vs[0], ts[0], stack, ItemPath(path, index));
      ItemsText(h, vs[1..], t, ts[1..], stack, path, index + 1);
    }
  }

  lemma {:induction false} PropsText(h: Heap, props: seq<Property>, t: Tree, keys: seq<Text>, stack: set<Ref>,
      path: Text)
    requires Closed(h) && forall p :: p in props ==> InHeap(h, p.value)
    requires t.Obj? && Plain(t) && |props| == |t.members|
    requires forall i :: 0 <= i < |props| ==>
      props[i].key == t.members[i].key && Unfolds(h, props[i].value, t.members[i].value)
    requires forall i :: 0 <= i < |props| ==> Above(h, stack, t.members[i].value)
    ensures CanonicalProps(h, props, keys, stack, path) == Success(WriteMembers(NormalMembers(t, keys)))
    decreases t, 0, |keys|
  {
    if keys != [] {
      var k := keys[0];
      LookupUnfolds(h, props, t.members, k);
      PropsText(h, props, t, keys[1..], stack, path);
      if Has(t.members, k) {
        var x := Lookup(t.members, k);
        var i :| 0 <= i < |props| && t.members[i] == Member(k, x);
        LookupPlain(t, k);
        UnfoldingText(h, PropValue(props, k), x, stack, PropPath(path, k));
        assert WriteMember(JMember(k, NormalForm(x))) == Quote(k) + [COLON] + TreeText(x);
      }
    }
  }

  // ----- a text means the unfolding is finite -----

  function Unfolding(h: Heap, v: Value, stack: set<Ref>): Tree
    requires Closed(h) && InHeap(h, v)
    decreases h.Keys - stack
  {
    if v.Prim? then Leaf(v.a)
    else if v.r in stack then Leaf(Undefined)
    else
      assert ClosedNode(h, h[v.r]);
      match h[v.r]
      case ArrayNode(items) =>
        Arr(seq(|items|, i requires 0 <= i < |items| => Unfolding(h, items[i], stack + {v.r})))
      case ObjectNode(props) =>
        Obj(seq(|props|, i requires 0 <= i < |props| =>
          Member(props[i].key, Unfolding(h, props[i].value, stack + {v.r}))))
  }

  lemma {:induction false} SuccessUnfolds(h: Heap, v: Value, stack: set<Ref>, path: Text)
    requires Closed(h) && InHeap(h, v) && Canonical(h, v, stack, path).Success?
    ensures Unfolds(h, v, Unfolding(h, v, stack))
    decreases h.Keys - stack
  {
    if v.Pointer? {
      var n := h[v.r];
      assert ClosedNode(h, n);
      forall i | 0 <= i < |Children(n)|
        ensures Unfolds(h, Children(n)[i], Unfolding(h, Children(n)[i], stack + {v.r}))
      {
        var w := Children(n)[i];
        if w != Prim(Undefined) {
          assert DefinedChild(h, v.r, w);
          ChildrenSucceed(h, v.r, stack, path, w);
          var q: Text :| Canonical(h, w, stack + {v.r}, q).Success?;
          SuccessUnfolds(h, w, stack + {v.r}, q);
        }
      }
      if n.ArrayNode? {
        forall i | 0 <= i < |n.items|
          ensures Unfolds(h, n.items[i], Unfolding(h, n.items[i], stack + {v.r}))
        {
          assert Children(n)[i] == n.items[i];
        }
      } else {
        forall i | 0 <= i < |n.props|
          ensures Unfolds(h, n.props[i].value, Unfolding(h, n.props[i].value, stack + {v.r}))
        {
          assert Children(n)[i] == n.props[i].value;
        }
      }
    }
  }

  /** The serializer returns a text exactly when the value unfolds to a finite
      printable tree, and then the text of that tree: sharing leaves no trace. */
  lemma TextOfUnfolding(h: Heap, v: Value, path: Text)
    requires Closed(h) && InHeap(h, v)
    ensures Canonical(h, v, {}, path).Success? <==> Finite(h, v)
    ensures forall t :: Unfolds(h, v, t) ==> Plain(t) && Canonical(h, v, {}, path) == Success(TreeText(t))
  {
    if Canonical(h, v, {}, path).Success? {
      SuccessUnfolds(h, v, {}, path);
    }
    forall t | Unfolds(h, v, t)
      ensures Plain(t) && Canonical(h, v, {}, path) == Success(TreeText(t))
    {
      UnfoldingPlain(h, v, t);
      UnfoldingText(h, v, t, {}, path);
    }
  }

  /** The text of a heap value reads back as the one JSON value that says what its unfolding says. */
  lemma GraphTextSays(h: Heap, v: Value, t: Tree)
    requires Closed(h) && InHeap(h, v) && Unfolds(h, v, t) && v != Prim(Undefined)
    ensures Canonical(h, v, {}, ROOT_PATH).Success?
    ensures var r := ReadValue(Canonical(h, v, {}, ROOT_PATH).value); r.Reading? && r.rest == [] && Denotes(t, r.value)
  {
    TextOfUnfolding(h, v, ROOT_PATH);
    TextSaysTree(t);
  }

  /** Two heap values with a text have the same one exactly when they are the
      same value, whatever they share and in whatever order their keys were set. */
  lemma GraphTextEqualIffSame(h: Heap, v: Value, t: Tree, k: Heap, w: Value, u: Tree)
    requires Closed(h) && InHeap(h, v) && Unfolds(h, v, t)
    requires Closed(k) && InHeap(k, w) && Unfolds(k, w, u)
    ensures Plain(t) && Plain(u)
    ensures Canonical(h, v, {}, ROOT_PATH) == Canonical(k, w, {}, ROOT_PATH) <==> Same(t, u)
  {
    TextOfUnfolding(h, v, ROOT_PATH);
    TextOfUnfolding(k, w, ROOT_PATH);
    TextEqualIffSame(t, u);
  }
}
