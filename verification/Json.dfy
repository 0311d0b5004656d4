/** JSON documents and the whole-tree traversals of scripts/release_sbom.py. An object keeps its
    fields in order, as Python's dict does. */
module Json {
  import opened Bytes
  import opened Sequences

  datatype Json = Null | Bool(b: bool) | Num(n: real) | Str(s: Text) | Arr(items: Items) | Obj(fields: Fields)

  datatype Items = NoItems | Item(head: Json, tail: Items)

  datatype Fields = NoFields | Field(key: string, value: Json, rest: Fields)

  function Lookup(f: Fields, key: string): Option<Json> {
    match f
    case NoFields => None
    case Field(k, v, rest) => if k == key then Some(v) else Lookup(rest, key)
  }

  function Elements(items: Items): seq<Json> {
    match items
    case NoItems => []
    case Item(h, t) => [h] + Elements(t)
  }

  /** `objects`: every object, outermost first. */
  function Objects(j: Json): seq<Fields> {
    match j
    case Obj(f) => [f] + ObjectsInFields(f)
    case Arr(i) => ObjectsInItems(i)
    case _ => []
  }

  function ObjectsInFields(f: Fields): seq<Fields> {
    match f
    case NoFields => []
    case Field(_, v, rest) => Objects(v) + ObjectsInFields(rest)
  }

  function ObjectsInItems(i: Items): seq<Fields> {
    match i
    case NoItems => []
    case Item(h, t) => Objects(h) + ObjectsInItems(t)
  }

  /** A string of the document, and whether it is the value of a "purl" key. */
  datatype Leaf = Leaf(purl: bool, text: Text)

  /** `strings`: every string value, with its position. */
  function Leaves(j: Json, purl: bool): seq<Leaf> {
    match j
    case Str(s) => [Leaf(purl, s)]
    case Obj(f) => LeavesInFields(f)
    case Arr(i) => LeavesInItems(i)
    case _ => []
  }

  function LeavesInFields(f: Fields): seq<Leaf> {
    match f
    case NoFields => []
    case Field(k, v, rest) => Leaves(v, k == "purl") + LeavesInFields(rest)
  }

  function LeavesInItems(i: Items): seq<Leaf> {
    match i
    case NoItems => []
    case Item(h, t) => Leaves(h, false) + LeavesInItems(t)
  }

  // ---------- rewriting the strings of a document ----------

  /** The same document with every string replaced. */
  function Map(j: Json, purl: bool, g: Leaf -> Text): Json {
    match j
    case Str(s) => Str(g(Leaf(purl, s)))
    case Obj(f) => Obj(MapFields(f, g))
    case Arr(i) => Arr(MapItems(i, g))
    case _ => j
  }

  function MapFields(f: Fields, g: Leaf -> Text): Fields {
    match f
    case NoFields => NoFields
    case Field(k, v, rest) => Field(k, Map(v, k == "purl", g), MapFields(rest, g))
  }

  function MapItems(i: Items, g: Leaf -> Text): Items {
    match i
    case NoItems => NoItems
    case Item(h, t) => Item(Map(h, false, g), MapItems(t, g))
  }

  function MapNodes(nodes: seq<Fields>, g: Leaf -> Text): (r: seq<Fields>)
    ensures |r| == |nodes| && forall i :: 0 <= i < |r| ==> r[i] == MapFields(nodes[i], g)
  {
    seq(|nodes|, i requires 0 <= i < |nodes| => MapFields(nodes[i], g))
  }

  function MapLeaves(ls: seq<Leaf>, g: Leaf -> Text): (r: seq<Leaf>)
    ensures |r| == |ls| && forall i :: 0 <= i < |r| ==> r[i] == Leaf(ls[i].purl, g(ls[i]))
  {
    seq(|ls|, i requires 0 <= i < |ls| => Leaf(ls[i].purl, g(ls[i])))
  }

  lemma {:induction false} LookupOfMap(f: Fields, key: string, g: Leaf -> Text)
    ensures Lookup(MapFields(f, g), key)
         == match Lookup(f, key) case None => None case Some(v) => Some(Map(v, key == "purl", g))
  {
    if f.Field? && f.key != key {
      LookupOfMap(f.rest, key, g);
    }
  }

  lemma {:induction false} ElementsOfMap(i: Items, g: Leaf -> Text)
    ensures |Elements(MapItems(i, g))| == |Elements(i)|
    ensures forall k :: 0 <= k < |Elements(i)| ==> Elements(MapItems(i, g))[k] == Map(Elements(i)[k], false, g)
  {
    if i.Item? {
      ElementsOfMap(i.tail, g);
    }
  }

  /** Rewriting keeps the objects in place. */
  lemma {:induction false} ObjectsOfMap(j: Json, purl: bool, g: Leaf -> Text)
    ensures Objects(Map(j, purl, g)) == MapNodes(Objects(j), g)
  {
    match j
    case Obj(f) =>
      ObjectsOfMapFields(f, g);
      assert MapNodes([f] + ObjectsInFields(f), g) == [MapFields(f, g)] + MapNodes(ObjectsInFields(f), g);
    case Arr(i) => ObjectsOfMapItems(i, g);
    case _ =>
  }

  lemma {:induction false} ObjectsOfMapFields(f: Fields, g: Leaf -> Text)
    ensures ObjectsInFields(MapFields(f, g)) == MapNodes(ObjectsInFields(f), g)
  {
    if f.Field? {
      ObjectsOfMap(f.value, f.key == "purl", g);
      ObjectsOfMapFields(f.rest, g);
    }
  }

  lemma {:induction false} ObjectsOfMapItems(i: Items, g: Leaf -> Text)
    ensures ObjectsInItems(MapItems(i, g)) == MapNodes(ObjectsInItems(i), g)
  {
    if i.Item? {
      ObjectsOfMap(i.head, false, g);
      ObjectsOfMapItems(i.tail, g);
    }
  }

  /** Rewriting keeps the strings in place. */
  lemma {:induction false} LeavesOfMap(j: Json, purl: bool, g: Leaf -> Text)
    ensures Leaves(Map(j, purl, g), purl) == MapLeaves(Leaves(j, purl), g)
  {
    match j
    case Obj(f) => LeavesOfMapFields(f, g);
    case Arr(i) => LeavesOfMapItems(i, g);
    case _ =>
  }

  lemma {:induction false} LeavesOfMapFields(f: Fields, g: Leaf -> Text)
    ensures LeavesInFields(MapFields(f, g)) == MapLeaves(LeavesInFields(f), g)
  {
    if f.Field? {
      LeavesOfMap(f.value, f.key == "purl", g);
      LeavesOfMapFields(f.rest, g);
    }
  }

  lemma {:induction false} LeavesOfMapItems(i: Items, g: Leaf -> Text)
    ensures LeavesInItems(MapItems(i, g)) == MapLeaves(LeavesInItems(i), g)
  {
    if i.Item? {
      LeavesOfMap(i.head, false, g);
      LeavesOfMapItems(i.tail, g);
    }
  }

  /** Two rewritings in a row are one, when they agree on the strings that occur. */
  lemma {:induction false} MapMap(j: Json, purl: bool, g: Leaf -> Text, h: Leaf -> Text, k: Leaf -> Text)
    requires forall l :: l in Leaves(j, purl) ==> h(Leaf(l.purl, g(l))) == k(l)
    ensures Map(Map(j, purl, g), purl, h) == Map(j, purl, k)
  {
    match j
    case Str(s) => assert Leaf(purl, s) in Leaves(j, purl);
    case Obj(f) => MapMapFields(f, g, h, k);
    case Arr(i) => MapMapItems(i, g, h, k);
    case _ =>
  }

  lemma {:induction false} MapMapFields(f: Fields, g: Leaf -> Text, h: Leaf -> Text, k: Leaf -> Text)
    requires forall l :: l in LeavesInFields(f) ==> h(Leaf(l.purl, g(l))) == k(l)
    ensures MapFields(MapFields(f, g), h) == MapFields(f, k)
  {
    if f.Field? {
      MapMap(f.value, f.key == "purl", g, h, k);
      MapMapFields(f.rest, g, h, k);
    }
  }

  lemma {:induction false} MapMapItems(i: Items, g: Leaf -> Text, h: Leaf -> Text, k: Leaf -> Text)
    requires forall l :: l in LeavesInItems(i) ==> h(Leaf(l.purl, g(l))) == k(l)
    ensures MapItems(MapItems(i, g), h) == MapItems(i, k)
  {
    if i.Item? {
      MapMap(i.head, false, g, h, k);
      MapMapItems(i.tail, g, h, k);
    }
  }

  /** A rewriting that fixes every string that occurs leaves the document alone. */
  lemma {:induction false} MapNothing(j: Json, purl: bool, g: Leaf -> Text)
    requires forall l :: l in Leaves(j, purl) ==> g(l) == l.text
    ensures Map(j, purl, g) == j
  {
    match j
    case Str(s) => assert Leaf(purl, s) in Leaves(j, purl);
    case Obj(f) => MapNothingFields(f, g);
    case Arr(i) => MapNothingItems(i, g);
    case _ =>
  }

  lemma {:induction false} MapNothingFields(f: Fields, g: Leaf -> Text)
    requires forall l :: l in LeavesInFields(f) ==> g(l) == l.text
    ensures MapFields(f, g) == f
  {
    if f.Field? {
      MapNothing(f.value, f.key == "purl", g);
      MapNothingFields(f.rest, g);
    }
  }

  lemma {:induction false} MapNothingItems(i: Items, g: Leaf -> Text)
    requires forall l :: l in LeavesInItems(i) ==> g(l) == l.text
    ensures MapItems(i, g) == i
  {
    if i.Item? {
      MapNothing(i.head, false, g);
      MapNothingItems(i.tail, g);
    }
  }

  /** A string field of any object is one of the document's strings. */
  lemma {:induction false} FieldIsLeaf(j: Json, purl: bool, node: Fields, key: string)
    requires node in Objects(j) && Lookup(node, key).Some? && Lookup(node, key).value.Str?
    ensures Leaf(key == "purl", Lookup(node, key).value.s) in Leaves(j, purl)
  {
    match j
    case Obj(f) =>
      if node == f {
        LookupIsLeaf(f, key);
      } else {
        FieldIsLeafFields(f, node, key);
      }
    case Arr(i) => FieldIsLeafItems(i, node, key);
  }

  lemma {:induction false} LookupIsLeaf(f: Fields, key: string)
    requires Lookup(f, key).Some? && Lookup(f, key).value.Str?
    ensures Leaf(key == "purl", Lookup(f, key).value.s) in LeavesInFields(f)
  {
    if f.key != key {
      LookupIsLeaf(f.rest, key);
    } else {
      assert f.value == Str(f.value.s);
      assert Leaves(f.value, key == "purl") == [Leaf(key == "purl", f.value.s)];
    }
  }

  lemma {:induction false} FieldIsLeafFields(f: Fields, node: Fields, key: string)
    requires node in ObjectsInFields(f) && Lookup(node, key).Some? && Lookup(node, key).value.Str?
    ensures Leaf(key == "purl", Lookup(node, key).value.s) in LeavesInFields(f)
  {
    if node in Objects(f.value) {
      FieldIsLeaf(f.value, f.key == "purl", node, key);
    } else {
      FieldIsLeafFields(f.rest, node, key);
    }
  }

  lemma {:induction false} FieldIsLeafItems(i: Items, node: Fields, key: string)
    requires node in ObjectsInItems(i) && Lookup(node, key).Some? && Lookup(node, key).value.Str?
    ensures Leaf(key == "purl", Lookup(node, key).value.s) in LeavesInItems(i)
  {
    if node in Objects(i.head) {
      FieldIsLeaf(i.head, false, node, key);
    } else {
      FieldIsLeafItems(i.tail, node, key);
    }
  }
}
