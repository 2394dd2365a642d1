/** Where the error of a failed serialization points: the path in its message leads
    from the value to the thing it names. */
module GraphPaths {
  import opened Wrappers
  import opened Sequences
  import opened Utf16
  import opened Json
  import opened Values
  import opened ObjectGraph

  /** One step into an array, counting its defined elements, or into an object. */
  datatype Label = Item(index: nat) | Prop(key: Text)

  /** `[index]` or `.key` */
  function LabelText(l: Label): Text {
    match l
    case Item(i) => [0x5B] + Decimal(i) + [0x5D]
    case Prop(k) => [0x2E] + k
  }

  function PathText(labels: seq<Label>): Text {
    if labels == [] then [] else LabelText(labels[0]) + PathText(labels[1..])
  }

  /** The value of a run of decimal digits. */
  function DecimalValue(t: Text): int {
    if t == [] then 0 else DecimalValue(t[..|t| - 1]) * 10 + t[|t| - 1] as int - 0x30
  }

  /** An index is written in decimal digits, without leading zeros. */
  lemma {:induction false} DecimalDigits(n: nat)
    ensures Decimal(n) != [] && forall i :: 0 <= i < |Decimal(n)| ==> 0x30 <= Decimal(n)[i] <= 0x39
    ensures DecimalValue(Decimal(n)) == n
    ensures n > 0 ==> Decimal(n)[0] != 0x30
    ensures n == 0 ==> Decimal(n) == [0x30]
  {
    var t := Decimal(n);
    if n >= 10 {
      DecimalDigits(n / 10);
      assert t[..|t| - 1] == Decimal(n / 10);
    } else {
      assert t[..|t| - 1] == [];
    }
  }

  /** `w` is what one step leads to. */
  predicate Child(h: Heap, v: Value, l: Label, w: Value) {
    v.Pointer? && v.r in h &&
    match l
    case Item(i) => h[v.r].ArrayNode? && i < |Defined(h[v.r].items)| && w == Defined(h[v.r].items)[i]
    case Prop(k) => h[v.r].ObjectNode? && HasProp(h[v.r].props, k) && w == PropValue(h[v.r].props, k)
  }

  ghost predicate Leads(h: Heap, v: Value, labels: seq<Label>, w: Value)
    decreases |labels|
  {
    if labels == [] then v == w
    else exists u :: Child(h, v, labels[0], u) && Leads(h, u, labels[1..], w)
  }

  lemma LeadsFirst(h: Heap, v: Value, l: Label, u: Value, labels: seq<Label>, w: Value)
    requires Child(h, v, l, u) && Leads(h, u, labels, w)
    ensures Leads(h, v, [l] + labels, w)
  {
    assert ([l] + labels)[1..] == labels;
  }

  /** The way ends at an object that it has passed before, or that is an ancestor already. */
  ghost predicate LeadsBack(h: Heap, v: Value, labels: seq<Label>, stack: set<Ref>) {
    exists r: Ref :: Leads(h, v, labels, Pointer(r)) && (r in stack || Passed(h, v, labels, r))
  }

  ghost predicate Passed(h: Heap, v: Value, labels: seq<Label>, r: Ref) {
    exists n: nat :: n < |labels| && Leads(h, v, labels[..n], Pointer(r))
  }

  /** The fault is at the end of the way, and its path is the text of the way. */
  ghost predicate Located(h: Heap, v: Value, labels: seq<Label>, stack: set<Ref>, path: Text, f: Fault) {
    match f
    case Unsupported(p, a) => p == path + PathText(labels) && Leads(h, v, labels, Prim(a))
    case Circular(p) => p == path + PathText(labels) && LeadsBack(h, v, labels, stack)
    case InvalidTime => Leads(h, v, labels, Prim(InvalidDate))
  }

  lemma BackOneUp(h: Heap, v: Value, l: Label, u: Value, labels: seq<Label>, stack: set<Ref>)
    requires Child(h, v, l, u) && LeadsBack(h, u, labels, stack + {v.r})
    ensures LeadsBack(h, v, [l] + labels, stack)
  {
    var r: Ref :| Leads(h, u, labels, Pointer(r)) && (r in stack + {v.r} || Passed(h, u, labels, r));
    LeadsFirst(h, v, l, u, labels, Pointer(r));
    var way := [l] + labels;
    if Passed(h, u, labels, r) {
      var n: nat :| n < |labels| && Leads(h, u, labels[..n], Pointer(r));
      LeadsFirst(h, v, l, u, labels[..n], Pointer(r));
      assert way[..n + 1] == [l] + labels[..n];
    } else if r == v.r {
      assert way[..0] == [];
      assert Leads(h, v, way[..0], Pointer(r));
    }
  }

  lemma PathGrows(path: Text, l: Label, labels: seq<Label>)
    ensures path + PathText([l] + labels) == path + LabelText(l) + PathText(labels)
  {
    var text, rest := LabelText(l), PathText(labels);
    assert ([l] + labels)[1..] == labels;
    assert PathText([l] + labels) == text + rest;
    assert path + (text + rest) == path + text + rest;
  }

  lemma LocatedOneUp(h: Heap, v: Value, l: Label, u: Value, labels: seq<Label>, stack: set<Ref>, path: Text, f: Fault)
    requires Child(h, v, l, u) && Located(h, u, labels, stack + {v.r}, path + LabelText(l), f)
    ensures Located(h, v, [l] + labels, stack, path, f)
  {
    PathGrows(path, l, labels);
    match f
    case Unsupported(p, a) => LeadsFirst(h, v, l, u, labels, Prim(a));
    case Circular(p) => BackOneUp(h, v, l, u, labels, stack);
    case InvalidTime => LeadsFirst(h, v, l, u, labels, Prim(InvalidDate));
  }

  /** Every failed attempt points to where it failed. */
  lemma {:induction false} FaultLocated(h: Heap, v: Value, stack: set<Ref>, path: Text) returns (labels: seq<Label>)
    requires Closed(h) && InHeap(h, v) && Canonical(h, v, stack, path).Failure?
    ensures Located(h, v, labels, stack, path, Canonical(h, v, stack, path).error)
    decreases h.Keys - stack, 0
  {
    labels := [];
    assert path + PathText([]) == path;
    if v.Pointer? && v.r in stack {
      assert Leads(h, v, [], Pointer(v.r));
    } else if v.Pointer? {
      var f := Canonical(h, v, stack, path).error;
      assert ClosedNode(h, h[v.r]);
      match h[v.r] {
        case ArrayNode(items) =>
          var i, rest := ItemFault(h, Defined(items), stack + {v.r}, path, 0);
          LocatedOneUp(h, v, Item(i), Defined(items)[i], rest, stack, path, f);
          labels := [Item(i)] + rest;
        case ObjectNode(props) =>
          var k, rest := PropFault(h, props, SortKeys(PropKeys(props)), stack + {v.r}, path);
          LocatedOneUp(h, v, Prop(k), PropValue(props, k), rest, stack, path, f);
          labels := [Prop(k)] + rest;
      }
    }
  }

  lemma {:induction false} ItemFault(h: Heap, items: seq<Value>, stack: set<Ref>, path: Text, index: nat)
      returns (i: nat, labels: seq<Label>)
    requires Closed(h) && forall v :: v in items ==> InHeap(h, v)
    requires CanonicalItems(h, items, stack, path, index).Failure?
    ensures index <= i < index + |items|
    ensures Located(h, items[i - index], labels, stack, path + LabelText(Item(i)),
      CanonicalItems(h, items, stack, path, index).error)
    decreases h.Keys - stack, 1 + |items|
  {
    if Canonical(h, items[0], stack, ItemPath(path, index)).Failure? {
      i := index;
      assert ItemPath(path, index) == path + LabelText(Item(index));
      labels := FaultLocated(h, items[0], stack, ItemPath(path, index));
    } else {
      i, labels := ItemFault(h, items[1..], stack, path, index + 1);
    }
  }

  lemma {:induction false} PropFault(h: Heap, props: seq<Property>, keys: seq<Text>, stack: set<Ref>, path: Text)
      returns (k: Text, labels: seq<Label>)
    requires Closed(h) && forall p :: p in props ==> InHeap(h, p.value)
    requires CanonicalProps(h, props, keys, stack, path).Failure?
    ensures HasProp(props, k)
    ensures Located(h, PropValue(props, k), labels, stack, path + LabelText(Prop(k)),
      CanonicalProps(h, props, keys, stack, path).error)
    decreases h.Keys - stack, 1 + |keys|
  {
    k := keys[0];
    if HasProp(props, k) && Canonical(h, PropValue(props, k), stack, PropPath(path, k)).Failure? {
      assert PropPath(path, k) == path + LabelText(Prop(k));
      labels := FaultLocated(h, PropValue(props, k), stack, PropPath(path, k));
    } else {
      k, labels := PropFault(h, props, keys[1..], stack, path);
    }
  }

  /** When the serializer throws, its error is at the end of some way from the value, and the
      path in it is "$" and the text of that way. */
  lemma ErrorPath(h: Heap, v: Value)
    requires Closed(h) && InHeap(h, v) && Canonical(h, v, {}, ROOT_PATH).Failure?
    ensures exists labels :: Located(h, v, labels, {}, [0x24], Canonical(h, v, {}, ROOT_PATH).error)
  {
    var labels := FaultLocated(h, v, {}, ROOT_PATH);
  }
}
