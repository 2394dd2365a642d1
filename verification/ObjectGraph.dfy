/** The canonical serializer on a heap of ECMAScript objects: sharing and
    cycles included, with the ancestor stack that detects the cycles. */
module ObjectGraph {
  import opened Wrappers
  import opened Sequences
  import opened Utf16
  import opened Json
  import opened Values

  type Ref = nat

  datatype Value = Prim(a: Atom) | Pointer(r: Ref)

  datatype Property = Property(key: Text, value: Value)

  datatype Node = ArrayNode(items: seq<Value>) | ObjectNode(props: seq<Property>)

  type Heap = map<Ref, Node>

  datatype Fault =
    | Unsupported(path: Text, kind: Atom)
    | Circular(path: Text)
    | InvalidTime

  const DOT: Unit := 0x2E
  const ROOT_PATH: Text := [0x24]

  function PropKeys(props: seq<Property>): (ks: seq<Text>)
    ensures |ks| == |props|
    ensures forall i :: 0 <= i < |ks| ==> ks[i] == props[i].key
  {
    if props == [] then [] else [props[0].key] + PropKeys(props[1..])
  }

  function PropValue(props: seq<Property>, k: Text): (v: Value)
    requires k in PropKeys(props)
    ensures Property(k, v) in props
  {
    if props[0].key == k then props[0].value else PropValue(props[1..], k)
  }

  predicate InHeap(h: Heap, v: Value) {
    v.Pointer? ==> v.r in h
  }

  /** No dangling pointers; property names of one object are distinct. */
  ghost predicate Closed(h: Heap) {
    forall r :: r in h ==> ClosedNode(h, h[r])
  }

  ghost predicate ClosedNode(h: Heap, n: Node) {
    match n
    case ArrayNode(items) => forall v :: v in items ==> InHeap(h, v)
    case ObjectNode(props) => Distinct(PropKeys(props)) && forall p :: p in props ==> InHeap(h, p.value)
  }

  /** `value.filter((item) => item !== undefined)` */
  function Defined(items: seq<Value>): (r: seq<Value>)
    ensures forall v :: v in r <==> v in items && v != Prim(Undefined)
  {
    if items == [] then []
    else if items[0] == Prim(Undefined) then Defined(items[1..])
    else [items[0]] + Defined(items[1..])
  }

  function Decimal(n: nat): Text {
    if n < 10 then [0x30 + n] else Decimal(n / 10) + [0x30 + n % 10]
  }

  function ItemPath(path: Text, i: nat): Text {
    path + [LBRACKET] + Decimal(i) + [RBRACKET]
  }

  function PropPath(path: Text, key: Text): Text {
    path + [DOT] + key
  }

  function PrimText(a: Atom, path: Text): Result<Text, Fault> {
    if a.Undefined? then Success([])
    else if a.InvalidDate? then Failure(InvalidTime)
    else if !a.Printable() then Failure(Unsupported(path, a))
    else Success(Write(AtomJson(a)))
  }

  // ----- what canonicalize computes -----

  /** The text of `v` below the ancestors in `stack`, or the first fault. */
  function Canonical(h: Heap, v: Value, stack: set<Ref>, path: Text): Result<Text, Fault>
    requires Closed(h) && InHeap(h, v)
    decreases h.Keys - stack, 0
  {
    if v.Prim? then PrimText(v.a, path)
    else if v.r in stack then Failure(Circular(path))
    else
      match h[v.r]
      case ArrayNode(items) =>
        var texts := CanonicalItems(h, Defined(items), stack + {v.r}, path, 0);
        if texts.Failure? then Failure(texts.error)
        else Success([LBRACKET] + JoinComma(texts.value) + [RBRACKET])
      case ObjectNode(props) =>
        var texts := CanonicalProps(h, props, SortKeys(PropKeys(props)), stack + {v.r}, path);
        if texts.Failure? then Failure(texts.error)
        else Success([LBRACE] + JoinComma(texts.value) + [RBRACE])
  }

  function CanonicalItems(h: Heap, items: seq<Value>, stack: set<Ref>, path: Text, index: nat):
      Result<seq<Text>, Fault>
    requires Closed(h) && forall v :: v in items ==> InHeap(h, v)
    decreases h.Keys - stack, 1 + |items|
  {
    if items == [] then Success([])
    else
      var head := Canonical(h, items[0], stack, ItemPath(path, index));
      if head.Failure? then Failure(head.error)
      else Followed([head.value], CanonicalItems(h, items[1..], stack, path, index + 1))
  }

  function CanonicalProps(h: Heap, props: seq<Property>, keys: seq<Text>, stack: set<Ref>, path: Text):
      Result<seq<Text>, Fault>
    requires Closed(h) && forall p :: p in props ==> InHeap(h, p.value)
    decreases h.Keys - stack, 1 + |keys|
  {
    if keys == [] then Success([])
    else if !HasProp(props, keys[0]) then CanonicalProps(h, props, keys[1..], stack, path)
    else
      var head := Canonical(h, PropValue(props, keys[0]), stack, PropPath(path, keys[0]));
      if head.Failure? then Failure(head.error)
      else
        Followed([Quote(keys[0]) + [COLON] + head.value], CanonicalProps(h, props, keys[1..], stack, path))
  }

  predicate HasProp(props: seq<Property>, k: Text) {
    k in PropKeys(props) && PropValue(props, k) != Prim(Undefined)
  }

  function Followed(first: seq<Text>, rest: Result<seq<Text>, Fault>): Result<seq<Text>, Fault> {
    if rest.Failure? then rest else Success(first + rest.value)
  }

  lemma FollowedNothing(r: Result<seq<Text>, Fault>)
    ensures Followed([], r) == r
  {
    if r.Success? { assert [] + r.value == r.value; }
  }

  lemma FollowedTwice(a: seq<Text>, b: seq<Text>, r: Result<seq<Text>, Fault>)
    ensures Followed(a, Followed(b, r)) == Followed(a + b, r)
  {
    if r.Success? { assert a + (b + r.value) == a + b + r.value; }
  }

  // ----- the serializer itself -----

  class Canonicalizer {
    const heap: Heap
    var stack: set<Ref>

    constructor (heap: Heap)
      ensures this.heap == heap && stack == {}
    {
      this.heap := heap;
      stack := {};
    }

    /** Grows the shared stack on the way down and restores it on the way up. */
    method Canonicalize(v: Value, path: Text) returns (r: Result<Text, Fault>)
      requires Closed(heap) && InHeap(heap, v)
      modifies this`stack
      ensures r == Canonical(heap, v, old(stack), path)
      ensures r.Success? ==> stack == old(stack)
      decreases heap.Keys - stack, 0
    {
      if v.Prim? {
        return PrimText(v.a, path);
      }
      if v.r in stack {
        return Failure(Circular(path));
      }
      ghost var outer := stack;
      stack := stack + {v.r};
      match heap[v.r]
      case ArrayNode(items) =>
        var texts := CanonicalizeItems(Defined(items), path);
        if texts.Failure? {
          return Failure(texts.error);
        }
        stack := stack - {v.r};
        assert stack == outer;
        return Success([LBRACKET] + JoinComma(texts.value) + [RBRACKET]);
      case ObjectNode(props) =>
        var texts := CanonicalizeProps(props, path);
        if texts.Failure? {
          return Failure(texts.error);
        }
        stack := stack - {v.r};
        assert stack == outer;
        return Success([LBRACE] + JoinComma(texts.value) + [RBRACE]);
    }

    method CanonicalizeItems(items: seq<Value>, path: Text) returns (r: Result<seq<Text>, Fault>)
      requires Closed(heap) && forall v :: v in items ==> InHeap(heap, v)
      modifies this`stack
      ensures r == CanonicalItems(heap, items, old(stack), path, 0)
      ensures r.Success? ==> stack == old(stack)
      decreases heap.Keys - stack, 1
    {
      var texts: seq<Text> := [];
      assert items[0..] == items;
      FollowedNothing(CanonicalItems(heap, items, stack, path, 0));
      for i := 0 to |items|
        invariant stack == old(stack)
        invariant CanonicalItems(heap, items, stack, path, 0) ==
          Followed(texts, CanonicalItems(heap, items[i..], stack, path, i))
      {
        var text := Canonicalize(items[i], ItemPath(path, i));
        if text.Failure? {
          return Failure(text.error);
        }
        assert items[i..][1..] == items[i + 1..];
        FollowedTwice(texts, [text.value], CanonicalItems(heap, items[i + 1..], stack, path, i + 1));
        texts := texts + [text.value];
      }
      assert texts + [] == texts;
      return Success(texts);
    }

    method CanonicalizeProps(props: seq<Property>, path: Text) returns (r: Result<seq<Text>, Fault>)
      requires Closed(heap) && forall p :: p in props ==> InHeap(heap, p.value)
      modifies this`stack
      ensures r == CanonicalProps(heap, props, SortKeys(PropKeys(props)), old(stack), path)
      ensures r.Success? ==> stack == old(stack)
      decreases heap.Keys - stack, 1
    {
      var keys := SortKeys(PropKeys(props));
      var texts: seq<Text> := [];
      assert keys[0..] == keys;
      FollowedNothing(CanonicalProps(heap, props, keys, stack, path));
      for i := 0 to |keys|
        invariant stack == old(stack)
        invariant CanonicalProps(heap, props, keys, stack, path) ==
          Followed(texts, CanonicalProps(heap, props, keys[i..], stack, path))
      {
        assert keys[i..][1..] == keys[i + 1..];
        if HasProp(props, keys[i]) {
          var text := Canonicalize(PropValue(props, keys[i]), PropPath(path, keys[i]));
          if text.Failure? {
            return Failure(text.error);
          }
          var entry := Quote(keys[i]) + [COLON] + text.value;
          FollowedTwice(texts, [entry], CanonicalProps(heap, props, keys[i + 1..], stack, path));
          texts := texts + [entry];
        }
      }
      assert texts + [] == texts;
      return Success(texts);
    }
  }

  /** `canonicalStringify` */
  method CanonicalStringify(heap: Heap, v: Value) returns (r: Result<Text, Fault>)
    requires Closed(heap) && InHeap(heap, v)
    ensures r == Canonical(heap, v, {}, ROOT_PATH)
  {
    var c := new Canonicalizer(heap);
    r := c.Canonicalize(v, ROOT_PATH);
  }
}
