/** Finite ECMAScript values as trees, what the canonical serializer keeps of
    them, and when two of them have the same canonical text. */
module Values {
  import opened Sequences
  import opened Utf16
  import opened Json

  /** Everything that is not an array or a plain object. A number is its
      ECMAScript text, a date its ISO text. */
  datatype Atom =
    | Undefined
    | Null
    | Bool(b: bool)
    | Number(lit: NumberText)
    | NonFinite
    | String(s: Text)
    | Date(iso: Text)
    | InvalidDate
    | Function
    | Symbol
    | BigInt
  {
    /** `canonicalize` does not throw on it. */
    predicate Printable() {
      !InvalidDate? && !Function? && !Symbol? && !BigInt?
    }
  }

  datatype Tree = Leaf(a: Atom) | Arr(items: seq<Tree>) | Obj(members: seq<Member>)

  /** One own enumerable property, in insertion order inside its object. */
  datatype Member = Member(key: Text, value: Tree)

  predicate Missing(t: Tree) { t == Leaf(Undefined) }

  function Keys(members: seq<Member>): (ks: seq<Text>)
    ensures |ks| == |members|
    ensures forall i :: 0 <= i < |ks| ==> ks[i] == members[i].key
  {
    if members == [] then [] else [members[0].key] + Keys(members[1..])
  }

  function Lookup(members: seq<Member>, k: Text): (t: Tree)
    requires k in Keys(members)
    ensures Member(k, t) in members
  {
    if members[0].key == k then members[0].value else Lookup(members[1..], k)
  }

  lemma {:induction false} LookupAt(members: seq<Member>, i: nat)
    requires Distinct(Keys(members)) && i < |members|
    ensures members[i].key in Keys(members)
    ensures Lookup(members, members[i].key) == members[i].value
  {
    assert Keys(members)[i] == members[i].key;
    if i > 0 {
      assert Keys(members)[0] != Keys(members)[i];
      LookupAt(members[1..], i - 1);
    }
  }

  /** Printable throughout, no key twice in one object. */
  predicate Plain(t: Tree) {
    match t
    case Leaf(a) => a.Printable()
    case Arr(items) => forall i :: 0 <= i < |items| ==> Plain(items[i])
    case Obj(members) =>
      Distinct(Keys(members)) && forall i :: 0 <= i < |members| ==> Plain(members[i].value)
  }

  function AtomJson(a: Atom): Json
    requires a.Printable() && !a.Undefined?
  {
    match a
    case Null => JNull
    case Bool(b) => JBool(b)
    case Number(lit) => JNumber(lit)
    case NonFinite => JNull
    case String(s) => JString(s)
    case Date(iso) => JString(iso)
  }

  /** `items.filter((item) => item !== undefined)` */
  function Present(items: seq<Tree>): (r: seq<Tree>)
    ensures forall x :: x in r <==> x in items && !Missing(x)
  {
    if items == [] then []
    else if Missing(items[0]) then Present(items[1..])
    else [items[0]] + Present(items[1..])
  }

  // ----- normal form -----

  /** The JSON value whose text is the canonical text of `t`. */
  function NormalForm(t: Tree): Json
    requires Plain(t) && !Missing(t)
    decreases t
  {
    match t
    case Leaf(a) => AtomJson(a)
    case Arr(items) => JArray(NormalItems(t, Present(items)))
    case Obj(members) => JObject(NormalMembers(t, SortKeys(Keys(members))))
  }

  function NormalItems(t: Tree, items: seq<Tree>): (js: seq<Json>)
    requires t.Arr? && forall x :: x in items ==> x in t.items && Plain(x) && !Missing(x)
    ensures |js| == |items|
    ensures forall i :: 0 <= i < |items| ==> js[i] == NormalForm(items[i])
    decreases t, |items|
  {
    if items == [] then [] else [NormalForm(items[0])] + NormalItems(t, items[1..])
  }

  predicate Has(members: seq<Member>, k: Text) {
    k in Keys(members) && !Missing(Lookup(members, k))
  }

  lemma LookupPlain(t: Tree, k: Text)
    requires Plain(t) && t.Obj? && k in Keys(t.members)
    ensures Plain(Lookup(t.members, k))
  {
    var i :| 0 <= i < |t.members| && t.members[i] == Member(k, Lookup(t.members, k));
  }

  function NormalMembers(t: Tree, keys: seq<Text>): (js: seq<JMember>)
    requires t.Obj? && Plain(t)
    decreases t, |keys|
  {
    if keys == [] then []
    else if !Has(t.members, keys[0]) then NormalMembers(t, keys[1..])
    else
      var v := Lookup(t.members, keys[0]);
      LookupPlain(t, keys[0]);
      assert v < t;
      [JMember(keys[0], NormalForm(v))] + NormalMembers(t, keys[1..])
  }

  /** The canonical text of a finite value. */
  function TreeText(t: Tree): Text
    requires Plain(t)
  {
    if Missing(t) then [] else Write(NormalForm(t))
  }

  // ----- sameness -----

  /** A date is its ISO text, and a number that JSON has no text for is null. */
  predicate SameAtom(x: Atom, y: Atom) {
    match x
    case Null => y.Null? || y.NonFinite?
    case NonFinite => y.Null? || y.NonFinite?
    case String(s) => y == String(s) || y == Date(s)
    case Date(iso) => y == String(iso) || y == Date(iso)
    case _ => x == y
  }

  /** Equal up to undefined members and elements, key order, dates given by
      their ISO text, and numbers that JSON has no text for. */
  ghost predicate Same(a: Tree, b: Tree)
    requires Plain(a) && Plain(b)
    decreases a
  {
    match a
    case Leaf(x) => b.Leaf? && SameAtom(x, b.a)
    case Arr(items) =>
      b.Arr? &&
      var xs, ys := Present(items), Present(b.items);
      |xs| == |ys| && forall i :: 0 <= i < |xs| ==> xs[i] in items && ys[i] in b.items && Same(xs[i], ys[i])
    case Obj(members) =>
      b.Obj? && forall k :: SameAt(a, b, k)
  }

  /** The two objects agree on one key. */
  ghost predicate SameAt(a: Tree, b: Tree, k: Text)
    requires a.Obj? && b.Obj? && Plain(a) && Plain(b)
    decreases a, 0
  {
    Has(a.members, k) == Has(b.members, k) &&
    (Has(a.members, k) ==>
      var x, y := Lookup(a.members, k), Lookup(b.members, k);
      LookupPlain(a, k);
      LookupPlain(b, k);
      assert x < a;
      Same(x, y))
  }

  // ----- equal text is exactly sameness -----

  lemma {:induction false} NormalMembersSorted(t: Tree, keys: seq<Text>)
    requires t.Obj? && Plain(t) && StrictlySorted(keys)
    ensures forall i, j :: 0 <= i < j < |NormalMembers(t, keys)| ==>
      Before(NormalMembers(t, keys)[i].key, NormalMembers(t, keys)[j].key)
    decreases keys
  {
    if keys != [] {
      NormalMembersSorted(t, keys[1..]);
      NormalMembersContents(t, keys[1..]);
      var tail := NormalMembers(t, keys[1..]);
      forall j | 0 <= j < |tail|
        ensures Before(keys[0], tail[j].key)
      {
        assert tail[j] in tail;
      }
    }
  }

  /** Exactly the defined properties are written, each with its own value. */
  lemma {:induction false} NormalMembersContents(t: Tree, keys: seq<Text>)
    requires t.Obj? && Plain(t)
    ensures forall m :: m in NormalMembers(t, keys) ==>
      m.key in keys && Has(t.members, m.key) && IsEntry(t, m)
    ensures forall k :: k in keys && Has(t.members, k) ==> exists m :: m in NormalMembers(t, keys) && m.key == k
    decreases keys
  {
    if keys != [] {
      var tail := NormalMembers(t, keys[1..]);
      NormalMembersContents(t, keys[1..]);
      forall k | k in keys && Has(t.members, k)
        ensures exists m :: m in NormalMembers(t, keys) && m.key == k
      {
        if k == keys[0] {
          assert NormalMembers(t, keys)[0].key == k;
        } else {
          var m :| m in tail && m.key == k;
          assert m in NormalMembers(t, keys);
        }
      }
    }
  }

  ghost predicate IsEntry(t: Tree, m: JMember)
    requires t.Obj? && Plain(t)
  {
    Has(t.members, m.key) &&
    var v := Lookup(t.members, m.key);
    Plain(v) && m.value == NormalForm(v)
  }

  function MemberKeys(js: seq<JMember>): (ks: seq<Text>)
    ensures |ks| == |js| && forall i :: 0 <= i < |ks| ==> ks[i] == js[i].key
  {
    seq(|js|, i requires 0 <= i < |js| => js[i].key)
  }

  /** The members written for a plain object, and what is known of them. */
  lemma ObjectForm(t: Tree) returns (js: seq<JMember>)
    requires t.Obj? && Plain(t)
    ensures NormalForm(t) == JObject(js)
    ensures StrictlySorted(MemberKeys(js))
    ensures forall m :: m in js ==> IsEntry(t, m)
    ensures forall k :: k in MemberKeys(js) <==> Has(t.members, k)
  {
    var keys := SortKeys(Keys(t.members));
    js := NormalMembers(t, keys);
    SortKeysSorts(Keys(t.members));
    NormalMembersSorted(t, keys);
    NormalMembersContents(t, keys);
    forall k
      ensures k in MemberKeys(js) <==> Has(t.members, k)
    {
      if k in MemberKeys(js) {
        var i :| 0 <= i < |js| && MemberKeys(js)[i] == k;
        assert js[i] in js;
      }
      if Has(t.members, k) {
        var m :| m in js && m.key == k;
        var i :| 0 <= i < |js| && js[i] == m;
        assert MemberKeys(js)[i] == k;
      }
    }
  }

  lemma {:induction false} PresentPlain(t: Tree)
    requires t.Arr? && Plain(t)
    ensures forall x :: x in Present(t.items) ==> Plain(x) && x < t
  {
    forall x | x in Present(t.items)
      ensures Plain(x) && x < t
    {
      var i :| 0 <= i < |t.items| && t.items[i] == x;
    }
  }

  lemma SameAtLookup(a: Tree, b: Tree, k: Text)
    requires a.Obj? && b.Obj? && Plain(a) && Plain(b) && k in Keys(a.members) && k in Keys(b.members)
    ensures Plain(Lookup(a.members, k)) && Plain(Lookup(b.members, k))
    ensures SameAt(a, b, k) <==> Same(Lookup(a.members, k), Lookup(b.members, k))
  {
    LookupPlain(a, k);
    LookupPlain(b, k);
  }

  lemma {:induction false} PresentAll(items: seq<Tree>)
    requires forall i :: 0 <= i < |items| ==> !Missing(items[i])
    ensures Present(items) == items
  {
    if items != [] {
      PresentAll(items[1..]);
    }
  }

  ghost predicate SameValues(xs: seq<Tree>, ys: seq<Tree>) {
    |xs| == |ys| && forall i :: 0 <= i < |xs| ==> Plain(xs[i]) && Plain(ys[i]) && Same(xs[i], ys[i])
  }

  /** Without undefined elements two arrays are the same exactly when they are element by element. */
  lemma ListSame(xs: seq<Tree>, ys: seq<Tree>)
    requires Plain(Arr(xs)) && Plain(Arr(ys))
    requires forall i :: 0 <= i < |xs| ==> !Missing(xs[i])
    requires forall i :: 0 <= i < |ys| ==> !Missing(ys[i])
    ensures Same(Arr(xs), Arr(ys)) <==> SameValues(xs, ys)
  {
    PresentAll(xs);
    PresentAll(ys);
  }

  lemma {:induction false} SameNormal(a: Tree, b: Tree)
    requires Plain(a) && Plain(b) && !Missing(a) && !Missing(b)
    ensures Same(a, b) <==> NormalForm(a) == NormalForm(b)
    decreases a
  {
    if a.Arr? && b.Arr? {
      SameNormalArrays(a, b);
    } else if a.Obj? && b.Obj? {
      SameNormalObjects(a, b);
    }
  }

  lemma {:induction false} SameNormalArrays(a: Tree, b: Tree)
    requires a.Arr? && b.Arr? && Plain(a) && Plain(b)
    ensures Same(a, b) <==> NormalForm(a) == NormalForm(b)
    decreases a, 0
  {
    var xs, ys := Present(a.items), Present(b.items);
    PresentPlain(a);
    PresentPlain(b);
    var js, ks := NormalItems(a, xs), NormalItems(b, ys);
    if |xs| == |ys| {
      forall i | 0 <= i < |xs|
        ensures xs[i] in a.items && ys[i] in b.items
        ensures Plain(xs[i]) && Plain(ys[i]) && (Same(xs[i], ys[i]) <==> js[i] == ks[i])
      {
        assert xs[i] in xs && ys[i] in ys;
        SameNormal(xs[i], ys[i]);
      }
    }
  }

  lemma {:induction false} SameNormalObjects(a: Tree, b: Tree)
    requires a.Obj? && b.Obj? && Plain(a) && Plain(b)
    ensures Same(a, b) <==> NormalForm(a) == NormalForm(b)
    decreases a, 0
  {
    var js := ObjectForm(a);
    var ks := ObjectForm(b);
    forall m, n | m in js && n in ks && m.key == n.key
      ensures m == n <==> SameAt(a, b, m.key)
    {
      LookupPlain(a, m.key);
      LookupPlain(b, m.key);
      SameNormal(Lookup(a.members, m.key), Lookup(b.members, m.key));
    }
    if js == ks {
      forall k
        ensures SameAt(a, b, k)
      {
        if k in MemberKeys(js) {
          var i :| 0 <= i < |js| && MemberKeys(js)[i] == k;
          assert js[i] in js && ks[i] in ks;
        }
      }
    }
    if Same(a, b) {
      assert forall k :: SameAt(a, b, k);
      SortedUnique(MemberKeys(js), MemberKeys(ks));
      forall i | 0 <= i < |js|
        ensures js[i] == ks[i]
      {
        assert MemberKeys(js)[i] == MemberKeys(ks)[i];
        assert js[i] in js && ks[i] in ks;
      }
    }
  }

  /** Canonical text is unambiguous: two finite values have the same text
      exactly when they are the same value up to what `Same` forgives. */
  lemma {:induction false} TextEqualIffSame(a: Tree, b: Tree)
    requires Plain(a) && Plain(b)
    ensures TreeText(a) == TreeText(b) <==> Same(a, b)
  {
    if Missing(a) || Missing(b) {
      if !Missing(a) { WriteStarts(NormalForm(a)); }
      if !Missing(b) { WriteStarts(NormalForm(b)); }
    } else {
      SameNormal(a, b);
      if TreeText(a) == TreeText(b) {
        WriteInjective(NormalForm(a), NormalForm(b));
      }
    }
  }

  // ----- what a text says -----

  /** The JSON value of an atom, constructor by constructor. */
  predicate DenotesAtom(a: Atom, j: Json) {
    match a
    case Null => j == JNull
    case Bool(b) => j == JBool(b)
    case Number(lit) => j == JNumber(lit)
    case NonFinite => j == JNull
    case String(s) => j == JString(s)
    case Date(iso) => j == JString(iso)
    case _ => false
  }

  /** The JSON value `j` says what the tree says: its defined elements in order, its defined
      members in key order. */
  ghost predicate Denotes(t: Tree, j: Json)
    decreases t, 0
  {
    match t
    case Leaf(a) => DenotesAtom(a, j)
    case Arr(items) => j.JArray? && DenotesItems(items, j.items)
    case Obj(members) => j.JObject? && StrictlySorted(MemberKeys(j.members)) && DenotesMembers(members, j.members)
  }

  ghost predicate DenotesItems(items: seq<Tree>, js: seq<Json>)
    decreases items, 1
  {
    if items == [] then js == []
    else if Missing(items[0]) then DenotesItems(items[1..], js)
    else js != [] && Denotes(items[0], js[0]) && DenotesItems(items[1..], js[1..])
  }

  ghost predicate DenotesMembers(members: seq<Member>, js: seq<JMember>)
    decreases members, 1
  {
    (forall i :: 0 <= i < |members| && !Missing(members[i].value) ==> Said(members[i], js)) &&
    (forall k :: 0 <= k < |js| ==> DefinedKey(members, js[k].key))
  }

  ghost predicate Said(m: Member, js: seq<JMember>)
    decreases m, 1
  {
    exists k :: 0 <= k < |js| && js[k].key == m.key && Denotes(m.value, js[k].value)
  }

  predicate DefinedKey(members: seq<Member>, key: Text) {
    exists i :: 0 <= i < |members| && members[i].key == key && !Missing(members[i].value)
  }

  /** Exactly one JSON value says what a plain tree says, and it is the one that is written. */
  lemma {:induction false} DenotesIff(t: Tree, j: Json)
    requires Plain(t) && !Missing(t)
    ensures Denotes(t, j) <==> j == NormalForm(t)
    decreases t, 1
  {
    match t
    case Leaf(a) =>
    case Arr(items) =>
      if j.JArray? {
        DenotesItemsIff(t, items, j.items);
      }
    case Obj(members) =>
      if j.JObject? {
        DenotesMembersIff(t, j.members);
      }
  }

  lemma {:induction false} DenotesItemsIff(t: Tree, items: seq<Tree>, js: seq<Json>)
    requires t.Arr? && Plain(t) && forall x :: x in items ==> x in t.items && Plain(x)
    ensures forall x :: x in Present(items) ==> x in t.items && Plain(x) && !Missing(x)
    ensures DenotesItems(items, js) <==> js == NormalItems(t, Present(items))
    decreases items, 1
  {
    if items != [] {
      var rest := if Missing(items[0]) || js == [] then js else js[1..];
      DenotesItemsIff(t, items[1..], rest);
      if !Missing(items[0]) {
        assert Present(items)[1..] == Present(items[1..]);
        if js != [] {
          DenotesIff(items[0], js[0]);
          assert js == [js[0]] + js[1..];
        }
      }
    }
  }

  lemma MemberAt(t: Tree, i: nat)
    requires t.Obj? && Plain(t) && i < |t.members|
    ensures Plain(t.members[i].value) && t.members[i].key in Keys(t.members)
    ensures Lookup(t.members, t.members[i].key) == t.members[i].value
  {
    LookupAt(t.members, i);
  }

  /** What is still to be shown of the members' values when an object is looked at. */
  ghost predicate ValuesDecided(t: Tree)
    requires t.Obj? && Plain(t)
  {
    forall i, j :: 0 <= i < |t.members| && !Missing(t.members[i].value) ==>
      (Denotes(t.members[i].value, j) <==> j == NormalForm(t.members[i].value))
  }

  lemma DefinedHas(t: Tree, key: Text)
    requires t.Obj? && Plain(t)
    ensures DefinedKey(t.members, key) <==> Has(t.members, key)
  {
    if i :| 0 <= i < |t.members| && t.members[i].key == key && !Missing(t.members[i].value) {
      MemberAt(t, i);
    }
    if Has(t.members, key) {
      assert Member(key, Lookup(t.members, key)) in t.members;
    }
  }

  lemma WrittenDenotes(t: Tree, js: seq<JMember>)
    requires t.Obj? && Plain(t) && ValuesDecided(t) && StrictlySorted(MemberKeys(js))
    requires forall m :: m in js ==> IsEntry(t, m)
    requires forall k :: k in MemberKeys(js) <==> Has(t.members, k)
    ensures Denotes(t, JObject(js))
  {
    forall i | 0 <= i < |t.members| && !Missing(t.members[i].value) ensures Said(t.members[i], js) {
      MemberAt(t, i);
      assert Has(t.members, t.members[i].key);
      var k :| 0 <= k < |js| && MemberKeys(js)[k] == t.members[i].key;
      assert IsEntry(t, js[k]);
    }
    forall k | 0 <= k < |js| ensures DefinedKey(t.members, js[k].key) {
      assert IsEntry(t, js[k]);
      DefinedHas(t, js[k].key);
    }
  }

  lemma SortedKeyOnce(js: seq<JMember>, i: nat, k: nat)
    requires StrictlySorted(MemberKeys(js)) && i < |js| && k < |js| && js[i].key == js[k].key
    ensures i == k
  {
    BeforeIrreflexive(js[i].key);
    assert MemberKeys(js)[i] == MemberKeys(js)[k];
  }

  lemma DenotedEntry(t: Tree, js: seq<JMember>, k: nat)
    requires t.Obj? && Plain(t) && ValuesDecided(t) && Denotes(t, JObject(js)) && k < |js|
    ensures IsEntry(t, js[k])
  {
    assert DefinedKey(t.members, js[k].key);
    var i :| 0 <= i < |t.members| && t.members[i].key == js[k].key && !Missing(t.members[i].value);
    assert Said(t.members[i], js);
    var n :| 0 <= n < |js| && js[n].key == t.members[i].key && Denotes(t.members[i].value, js[n].value);
    SortedKeyOnce(js, k, n);
    MemberAt(t, i);
  }

  lemma DenotedKeys(t: Tree, js: seq<JMember>, key: Text)
    requires t.Obj? && Plain(t) && Denotes(t, JObject(js))
    ensures key in MemberKeys(js) <==> Has(t.members, key)
  {
    DefinedHas(t, key);
    if key in MemberKeys(js) {
      var k :| 0 <= k < |js| && MemberKeys(js)[k] == key;
      assert DefinedKey(t.members, js[k].key);
    }
    if DefinedKey(t.members, key) {
      var i :| 0 <= i < |t.members| && t.members[i].key == key && !Missing(t.members[i].value);
      assert Said(t.members[i], js);
      var n :| 0 <= n < |js| && js[n].key == t.members[i].key && Denotes(t.members[i].value, js[n].value);
      assert MemberKeys(js)[n] == key;
    }
  }

  lemma EntriesDecide(t: Tree, js: seq<JMember>, ks: seq<JMember>)
    requires t.Obj? && Plain(t) && StrictlySorted(MemberKeys(js)) && StrictlySorted(MemberKeys(ks))
    requires (forall i :: 0 <= i < |js| ==> IsEntry(t, js[i])) && (forall m :: m in ks ==> IsEntry(t, m))
    requires forall k :: k in MemberKeys(js) <==> k in MemberKeys(ks)
    ensures js == ks
  {
    SortedUnique(MemberKeys(js), MemberKeys(ks));
    forall i | 0 <= i < |js| ensures js[i] == ks[i] {
      assert MemberKeys(js)[i] == MemberKeys(ks)[i];
      assert ks[i] in ks;
      assert IsEntry(t, js[i]);
    }
  }

  lemma {:induction false} DenotesMembersIff(t: Tree, js: seq<JMember>)
    requires t.Obj? && Plain(t)
    ensures Denotes(t, JObject(js)) <==> JObject(js) == NormalForm(t)
    decreases t, 0
  {
    forall i, j | 0 <= i < |t.members| && !Missing(t.members[i].value)
      ensures Denotes(t.members[i].value, j) <==> j == NormalForm(t.members[i].value)
    {
      MemberAt(t, i);
      DenotesIff(t.members[i].value, j);
    }
    var ks := ObjectForm(t);
    WrittenDenotes(t, ks);
    if Denotes(t, JObject(js)) {
      forall k | 0 <= k < |js| ensures IsEntry(t, js[k]) {
        DenotedEntry(t, js, k);
      }
      forall key ensures key in MemberKeys(js) <==> key in MemberKeys(ks) {
        DenotedKeys(t, js, key);
      }
      EntriesDecide(t, js, ks);
    }
  }

  /** Reading the text of a plain value back gives the JSON value that says what it says,
      and nothing is left; and that value alone has this text. */
  lemma TextSaysTree(t: Tree)
    requires Plain(t) && !Missing(t)
    ensures var r := ReadValue(TreeText(t)); r.Reading? && r.rest == [] && Denotes(t, r.value)
    ensures forall j :: Write(j) == TreeText(t) <==> Denotes(t, j)
    ensures TreeText(Leaf(Undefined)) == []
  {
    ReadInvertsWrite(NormalForm(t), []);
    assert TreeText(t) + [] == TreeText(t);
    DenotesIff(t, NormalForm(t));
    forall j ensures Write(j) == TreeText(t) <==> Denotes(t, j) {
      DenotesIff(t, j);
      if Write(j) == TreeText(t) {
        WriteInjective(j, NormalForm(t));
      }
    }
  }

  /** The text of every atom: literal units, the number's own text, or a string that reads back. */
  lemma AtomTexts(s: Text, lit: NumberText)
    ensures TreeText(Leaf(Undefined)) == []
    ensures TreeText(Leaf(Null)) == TreeText(Leaf(NonFinite)) == [0x6E, 0x75, 0x6C, 0x6C]
    ensures TreeText(Leaf(Bool(true))) == [0x74, 0x72, 0x75, 0x65]
    ensures TreeText(Leaf(Bool(false))) == [0x66, 0x61, 0x6C, 0x73, 0x65]
    ensures TreeText(Leaf(Number(lit))) == lit
    ensures TreeText(Leaf(String(s))) == TreeText(Leaf(Date(s))) == [0x22] + Escape(s) + [0x22]
    ensures ReadValue(TreeText(Leaf(String(s)))) == Reading(JString(s), [])
  {
    ReadInvertsString(s, []);
    assert Quote(s) + [] == Quote(s);
  }
}
