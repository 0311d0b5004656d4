/** Normalization and validation of release SBOMs (scripts/release_sbom.py). Every raised ValueError
    is None or false. */
module Sbom {
  import opened Bytes
  import opened Sequences
  import opened Purl
  import opened Json

  /** "CycloneDX" */
  const CYCLONE_DX: Text := [67, 121, 99, 108, 111, 110, 101, 68, 88]

  // ---------- identities ----------

  ghost predicate NoDup<T>(s: seq<T>) {
    forall i, j :: 0 <= i < j < |s| ==> s[i] != s[j]
  }

  /** A bom-ref, where present, is a nonempty string. */
  predicate RefOk(node: Fields) {
    match Lookup(node, "bom-ref")
    case None => true
    case Some(v) => v.Str? && v.s != []
  }

  function RefOf(node: Fields): Option<Text> {
    match Lookup(node, "bom-ref")
    case None => None
    case Some(v) => if v.Str? then Some(v.s) else None
  }

  function RefList(nodes: seq<Fields>): seq<Text> {
    if nodes == [] then []
    else
      var n := |nodes| - 1;
      RefList(nodes[..n]) + match RefOf(nodes[n]) case None => [] case Some(r) => [r]
  }

  ghost predicate GoodRefs(nodes: seq<Fields>) {
    (forall i :: 0 <= i < |nodes| ==> RefOk(nodes[i])) && NoDup(RefList(nodes))
  }

  /** The object's package URL, cleaned; None when it is missing or not a package URL. */
  function PurlOf(node: Fields): Option<Text> {
    match Lookup(node, "purl")
    case None => None
    case Some(v) => if v.Str? then Clean(v.s) else None
  }

  function LocalRef(node: Fields): Option<Text> {
    match RefOf(node)
    case None => None
    case Some(r) => if Local(r) then Some(r) else None
  }

  predicate PurlsOk(nodes: seq<Fields>) {
    forall i :: 0 <= i < |nodes| ==> (Lookup(nodes[i], "purl").Some? ==> PurlOf(nodes[i]).Some?)
  }

  predicate Renamable(nodes: seq<Fields>) {
    forall i :: 0 <= i < |nodes| ==> (LocalRef(nodes[i]).Some? ==> PurlOf(nodes[i]).Some?)
  }

  /** A local bom-ref with its component's cleaned package URL. */
  function EntryOf(node: Fields): Option<(Text, Text)> {
    match (LocalRef(node), PurlOf(node))
    case (Some(r), Some(p)) => Some((r, p))
    case _ => None
  }

  function Entries(nodes: seq<Fields>): (r: seq<Option<(Text, Text)>>)
    ensures |r| == |nodes| && forall i :: 0 <= i < |r| ==> r[i] == EntryOf(nodes[i])
  {
    seq(|nodes|, i requires 0 <= i < |nodes| => EntryOf(nodes[i]))
  }

  /** The dictionary filled by one assignment per entry. */
  function Dictionary(es: seq<Option<(Text, Text)>>): map<Text, Text> {
    if es == [] then map[]
    else
      var n := |es| - 1;
      match es[n]
      case None => Dictionary(es[..n])
      case Some((k, v)) => Dictionary(es[..n])[k := v]
  }

  function Mapping(nodes: seq<Fields>): map<Text, Text> { Dictionary(Entries(nodes)) }

  function Rename(m: map<Text, Text>, s: Text): Text { if s in m then m[s] else s }

  function Renamer(m: map<Text, Text>): Leaf -> Text { (l: Leaf) => Rename(m, l.text) }

  function CleanOr(s: Text): Text {
    match Clean(s) case None => s case Some(w) => w
  }

  function Cleaner(): Leaf -> Text { (l: Leaf) => if l.purl then CleanOr(l.text) else l.text }

  /** The deep copy after the loop that cleans every package URL in place. */
  function Cleaned(doc: Json): Json { Map(doc, false, Cleaner()) }

  // ---------- validity ----------

  predicate ListOfObjects(j: Json) {
    j.Arr? && forall i :: 0 <= i < |Elements(j.items)| ==> Elements(j.items)[i].Obj?
  }

  predicate SectionsOk(node: Fields) {
    && (Lookup(node, "components").Some? ==> ListOfObjects(Lookup(node, "components").value))
    && (Lookup(node, "services").Some? ==> ListOfObjects(Lookup(node, "services").value))
  }

  /** An absent list is empty; None when the key holds something else. */
  function ListAt(f: Fields, key: string): Option<seq<Json>> {
    match Lookup(f, key)
    case None => Some([])
    case Some(v) => if v.Arr? then Some(Elements(v.items)) else None
  }

  function DepRef(d: Json): Option<Text> {
    if !d.Obj? then None
    else match Lookup(d.fields, "ref")
      case None => None
      case Some(v) => if v.Str? then Some(v.s) else None
  }

  predicate ChildOk(c: Json, defs: set<Text>) { c.Str? && c.s in defs }

  predicate DepOk(d: Json, defs: set<Text>) {
    && d.Obj? && DepRef(d).Some? && DepRef(d).value in defs
    && ListAt(d.fields, "dependsOn").Some?
    && forall k :: 0 <= k < |ListAt(d.fields, "dependsOn").value| ==>
         ChildOk(ListAt(d.fields, "dependsOn").value[k], defs)
  }

  function ParentList(deps: seq<Json>): seq<Text> {
    if deps == [] then []
    else
      var n := |deps| - 1;
      ParentList(deps[..n]) + match DepRef(deps[n]) case None => [] case Some(r) => [r]
  }

  function RefSet(nodes: seq<Fields>): set<Text> { set r | r in RefList(nodes) }

  function Definitions(doc: Json): set<Text> { RefSet(Objects(doc)) }

  /** What `validate_sbom` accepts: unambiguous identifiers, no dangling edges, no local reference. */
  ghost predicate ValidSbom(doc: Json) {
    && doc.Obj? && Lookup(doc.fields, "bomFormat") == Some(Str(CYCLONE_DX))
    && (forall i :: 0 <= i < |Objects(doc)| ==> SectionsOk(Objects(doc)[i]))
    && GoodRefs(Objects(doc))
    && ListAt(doc.fields, "dependencies").Some?
    && (var deps := ListAt(doc.fields, "dependencies").value;
        (forall i :: 0 <= i < |deps| ==> DepOk(deps[i], Definitions(doc))) && NoDup(ParentList(deps)))
    && (forall l :: l in Leaves(doc, false) ==> !Local(l.text))
  }

  /** `normalize_sbom`. */
  ghost function Normalize(doc: Json): Option<Json> {
    var nodes := Objects(Cleaned(doc));
    if !PurlsOk(Objects(doc)) || !GoodRefs(nodes) || !Renamable(nodes) then None
    else
      var out := Map(Cleaned(doc), false, Renamer(Mapping(nodes)));
      if ValidSbom(out) then Some(out) else None
  }

  // ---------- facts about the identities ----------

  lemma {:induction false} RefListMembers(nodes: seq<Fields>, r: Text)
    ensures r in RefList(nodes) <==> exists i :: 0 <= i < |nodes| && RefOf(nodes[i]) == Some(r)
  {
    if nodes != [] {
      var n := |nodes| - 1;
      RefListMembers(nodes[..n], r);
      if i :| 0 <= i < |nodes| && RefOf(nodes[i]) == Some(r) {
        assert i < n ==> nodes[..n][i] == nodes[i];
      }
    }
  }

  lemma {:induction false} DictionaryMeans(es: seq<Option<(Text, Text)>>, k: Text)
    ensures k in Dictionary(es) <==> exists i :: 0 <= i < |es| && es[i].Some? && es[i].value.0 == k
    ensures k in Dictionary(es) ==> exists i :: 0 <= i < |es| && es[i] == Some((k, Dictionary(es)[k]))
  {
    if es != [] {
      var n := |es| - 1;
      DictionaryMeans(es[..n], k);
      if es[n].Some? && es[n].value.0 == k {
        assert es[n] == Some((k, Dictionary(es)[k]));
      } else {
        if i :| 0 <= i < |es| && es[i].Some? && es[i].value.0 == k {
          assert es[..n][i] == es[i];
        }
        if k in Dictionary(es[..n]) {
          var i :| 0 <= i < n && es[..n][i] == Some((k, Dictionary(es[..n])[k]));
          assert es[i] == Some((k, Dictionary(es)[k]));
        }
      }
    }
  }

  lemma {:induction false} EntryMeans(node: Fields)
    ensures EntryOf(node).Some? ==>
      && LocalRef(node) == RefOf(node) == Some(EntryOf(node).value.0) && Local(EntryOf(node).value.0)
      && PurlOf(node) == Some(EntryOf(node).value.1)
      && exists v :: PKG <= v && Clean(v) == Some(EntryOf(node).value.1)
    ensures LocalRef(node).Some? && PurlOf(node).Some? ==> EntryOf(node).Some?
    ensures RefOf(node).Some? && Local(RefOf(node).value) ==> LocalRef(node) == RefOf(node)
  {
    if EntryOf(node).Some? {
      var v := Lookup(node, "purl").value.s;
      assert PKG <= v && Clean(v) == PurlOf(node);
    }
  }

  /** The keys are the local bom-refs, the values are cleaned package URLs. */
  lemma {:induction false} MappingKey(nodes: seq<Fields>, r: Text)
    requires Renamable(nodes)
    ensures r in Mapping(nodes) <==> r in RefList(nodes) && Local(r)
    ensures r in Mapping(nodes) ==> exists v :: PKG <= v && Clean(v) == Some(Mapping(nodes)[r])
  {
    var es := Entries(nodes);
    DictionaryMeans(es, r);
    RefListMembers(nodes, r);
    if r in Mapping(nodes) {
      var i :| 0 <= i < |es| && es[i] == Some((r, Mapping(nodes)[r]));
      EntryMeans(nodes[i]);
    }
    if r in RefList(nodes) && Local(r) {
      var i :| 0 <= i < |nodes| && RefOf(nodes[i]) == Some(r);
      EntryMeans(nodes[i]);
      assert es[i].Some? && es[i].value.0 == r;
    }
  }

  lemma {:induction false} RefsDiffer(nodes: seq<Fields>, i: nat, j: nat, r: Text)
    requires NoDup(RefList(nodes)) && i < |nodes| && j < |nodes|
    requires RefOf(nodes[i]) == Some(r) && RefOf(nodes[j]) == Some(r)
    ensures i == j
  {
    var n := |nodes| - 1;
    var init, all := RefList(nodes[..n]), RefList(nodes);
    assert forall k :: 0 <= k < |init| ==> all[k] == init[k];
    if i < n && j < n {
      RefsDiffer(nodes[..n], i, j, r);
    } else {
      assert all[|init|] == r;
      RefListMembers(nodes[..n], r);
    }
  }

  /** With distinct refs, each local ref maps to its own component's package URL. */
  lemma {:induction false} MappingAt(nodes: seq<Fields>, i: nat, r: Text)
    requires NoDup(RefList(nodes)) && i < |nodes| && LocalRef(nodes[i]) == Some(r) && PurlOf(nodes[i]).Some?
    ensures r in Mapping(nodes) && Some(Mapping(nodes)[r]) == PurlOf(nodes[i])
  {
    var es := Entries(nodes);
    DictionaryMeans(es, r);
    EntryMeans(nodes[i]);
    assert es[i].Some? && es[i].value.0 == r;
    var k :| 0 <= k < |es| && es[k] == Some((r, Mapping(nodes)[r]));
    EntryMeans(nodes[k]);
    RefsDiffer(nodes, i, k, r);
  }

  /** Rewriting the strings of a document rewrites its refs. */
  lemma {:induction false} RefOfMap(node: Fields, g: Leaf -> Text)
    ensures RefOf(MapFields(node, g))
         == match RefOf(node) case None => None case Some(r) => Some(g(Leaf(false, r)))
  {
    LookupOfMap(node, "bom-ref", g);
  }

  lemma {:induction false} RefListOfMap(nodes: seq<Fields>, g: Leaf -> Text)
    ensures |RefList(MapNodes(nodes, g))| == |RefList(nodes)|
    ensures forall i :: 0 <= i < |RefList(nodes)| ==>
              RefList(MapNodes(nodes, g))[i] == g(Leaf(false, RefList(nodes)[i]))
  {
    if nodes != [] {
      var n := |nodes| - 1;
      RefListOfMap(nodes[..n], g);
      assert MapNodes(nodes, g)[..n] == MapNodes(nodes[..n], g);
      RefOfMap(nodes[n], g);
    }
  }

  lemma {:induction false} CleanKeepsRefs(doc: Json)
    ensures RefList(Objects(Cleaned(doc))) == RefList(Objects(doc))
  {
    ObjectsOfMap(doc, false, Cleaner());
    RefListOfMap(Objects(doc), Cleaner());
  }

  lemma {:induction false} RefsAreLeaves(doc: Json, r: Text)
    requires r in RefList(Objects(doc))
    ensures Leaf(false, r) in Leaves(doc, false)
  {
    RefListMembers(Objects(doc), r);
    var i :| 0 <= i < |Objects(doc)| && RefOf(Objects(doc)[i]) == Some(r);
    FieldIsLeaf(doc, false, Objects(doc)[i], "bom-ref");
  }

  // ---------- the renaming and the graph ----------

  /** The renaming that normalization applies to the document's strings. */
  ghost function Renaming(doc: Json): map<Text, Text> { Mapping(Objects(Cleaned(doc))) }

  /** Edge u -> v of the dependency graph. */
  ghost predicate HasEdge(doc: Json, u: Text, v: Text) {
    && doc.Obj? && ListAt(doc.fields, "dependencies").Some?
    && exists i :: EdgeAt(ListAt(doc.fields, "dependencies").value, i, u, v)
  }

  ghost predicate EdgeAt(deps: seq<Json>, i: int, u: Text, v: Text) {
    0 <= i < |deps| && deps[i].Obj? && DepRef(deps[i]) == Some(u)
    && ListAt(deps[i].fields, "dependsOn").Some?
    && Str(v) in ListAt(deps[i].fields, "dependsOn").value
  }

  lemma {:induction false} ListOfMap(f: Fields, key: string, g: Leaf -> Text)
    ensures ListAt(MapFields(f, g), key).Some? <==> ListAt(f, key).Some?
    ensures ListAt(f, key).Some? ==>
      var a, b := ListAt(f, key).value, ListAt(MapFields(f, g), key).value;
      |a| == |b| && forall k :: 0 <= k < |a| ==> b[k] == Map(a[k], false, g)
  {
    LookupOfMap(f, key, g);
    if Lookup(f, key).Some? && Lookup(f, key).value.Arr? {
      ElementsOfMap(Lookup(f, key).value.items, g);
    }
  }

  /** The edges of a rewritten document are the rewritten edges. */
  lemma {:induction false} EdgesOfMap(doc: Json, g: Leaf -> Text, x: Text, y: Text)
    ensures HasEdge(Map(doc, false, g), x, y) <==>
            exists u, v :: HasEdge(doc, u, v) && g(Leaf(false, u)) == x && g(Leaf(false, v)) == y
  {
    if doc.Obj? {
      ListOfMap(doc.fields, "dependencies", g);
      if ListAt(doc.fields, "dependencies").Some? {
        var a := ListAt(doc.fields, "dependencies").value;
        var b := ListAt(MapFields(doc.fields, g), "dependencies").value;
        if i :| EdgeAt(b, i, x, y) {
          var u, v := EdgeBack(a, b, i, g, x, y);
          assert HasEdge(doc, u, v);
        }
        if u, v :| HasEdge(doc, u, v) && g(Leaf(false, u)) == x && g(Leaf(false, v)) == y {
          var i :| EdgeAt(a, i, u, v);
          EdgeForth(a, b, i, g, u, v);
        }
      }
    }
  }

  lemma {:induction false} DepRefOfMap(d: Json, g: Leaf -> Text)
    ensures DepRef(Map(d, false, g)) == match DepRef(d) case None => None case Some(r) => Some(g(Leaf(false, r)))
  {
    if d.Obj? {
      LookupOfMap(d.fields, "ref", g);
    }
  }

  lemma {:induction false} EdgeBack(a: seq<Json>, b: seq<Json>, i: int, g: Leaf -> Text, x: Text, y: Text)
    returns (u: Text, v: Text)
    requires |a| == |b| && forall k :: 0 <= k < |a| ==> b[k] == Map(a[k], false, g)
    requires EdgeAt(b, i, x, y)
    ensures EdgeAt(a, i, u, v) && g(Leaf(false, u)) == x && g(Leaf(false, v)) == y
  {
    DepRefOfMap(a[i], g);
    u := DepRef(a[i]).value;
    ListOfMap(a[i].fields, "dependsOn", g);
    var cs := ListAt(a[i].fields, "dependsOn").value;
    var ds := ListAt(b[i].fields, "dependsOn").value;
    var k :| 0 <= k < |ds| && ds[k] == Str(y);
    v := cs[k].s;
    assert cs[k] == Str(v);
  }

  lemma {:induction false} EdgeForth(a: seq<Json>, b: seq<Json>, i: int, g: Leaf -> Text, u: Text, v: Text)
    requires |a| == |b| && forall k :: 0 <= k < |a| ==> b[k] == Map(a[k], false, g)
    requires EdgeAt(a, i, u, v)
    ensures EdgeAt(b, i, g(Leaf(false, u)), g(Leaf(false, v)))
  {
    DepRefOfMap(a[i], g);
    ListOfMap(a[i].fields, "dependsOn", g);
    var cs := ListAt(a[i].fields, "dependsOn").value;
    var ds := ListAt(b[i].fields, "dependsOn").value;
    var k :| 0 <= k < |cs| && cs[k] == Str(v);
    assert ds[k] == Str(g(Leaf(false, v)));
  }

  lemma {:induction false} CleanKeepsEdges(doc: Json, u: Text, v: Text)
    ensures HasEdge(Cleaned(doc), u, v) <==> HasEdge(doc, u, v)
  {
    EdgesOfMap(doc, Cleaner(), u, v);
    assert forall s :: Cleaner()(Leaf(false, s)) == s;
  }

  /** The output's edges are exactly the renamed input edges. */
  lemma {:induction false} OutputEdges(doc: Json, x: Text, y: Text)
    requires Normalize(doc).Some?
    ensures HasEdge(Normalize(doc).value, x, y) <==>
            exists u, v :: HasEdge(doc, u, v) && Rename(Renaming(doc), u) == x && Rename(Renaming(doc), v) == y
  {
    var m := Renaming(doc);
    EdgesOfMap(Cleaned(doc), Renamer(m), x, y);
    forall u, v ensures HasEdge(Cleaned(doc), u, v) <==> HasEdge(doc, u, v) {
      CleanKeepsEdges(doc, u, v);
    }
    assert forall s :: Renamer(m)(Leaf(false, s)) == Rename(m, s);
  }

  lemma {:induction false} OutputRefs(doc: Json)
    requires Normalize(doc).Some?
    ensures var refs, out := RefList(Objects(doc)), RefList(Objects(Normalize(doc).value));
      |refs| == |out| && forall i :: 0 <= i < |refs| ==> out[i] == Rename(Renaming(doc), refs[i])
  {
    CleanKeepsRefs(doc);
    ObjectsOfMap(Cleaned(doc), false, Renamer(Renaming(doc)));
    RefListOfMap(Objects(Cleaned(doc)), Renamer(Renaming(doc)));
  }

  lemma {:induction false} InjectiveByImage(refs: seq<Text>, out: seq<Text>, m: map<Text, Text>)
    requires |refs| == |out| && NoDup(out) && forall i :: 0 <= i < |refs| ==> out[i] == Rename(m, refs[i])
    ensures forall r, r' :: r in refs && r' in refs && Rename(m, r) == Rename(m, r') ==> r == r'
  {
    forall r, r' | r in refs && r' in refs && Rename(m, r) == Rename(m, r') ensures r == r' {
      var i :| 0 <= i < |refs| && refs[i] == r;
      var j :| 0 <= j < |refs| && refs[j] == r';
      assert out[i] == out[j];
    }
  }

  /** The renaming is a bijection from the input's bom-refs to the output's, in document order. */
  lemma {:induction false} RenamingIsBijective(doc: Json)
    requires Normalize(doc).Some?
    ensures var refs, out := RefList(Objects(doc)), RefList(Objects(Normalize(doc).value));
      && |refs| == |out| && NoDup(refs) && NoDup(out)
      && (forall i :: 0 <= i < |refs| ==> out[i] == Rename(Renaming(doc), refs[i]))
      && (forall r, r' :: r in refs && r' in refs && Rename(Renaming(doc), r) == Rename(Renaming(doc), r') ==> r == r')
  {
    CleanKeepsRefs(doc);
    OutputRefs(doc);
    InjectiveByImage(RefList(Objects(doc)), RefList(Objects(Normalize(doc).value)), Renaming(doc));
  }

  ghost predicate EdgesDefined(doc: Json) {
    forall u, v :: HasEdge(doc, u, v) ==> u in RefList(Objects(doc)) && v in RefList(Objects(doc))
  }

  /** The renaming is an isomorphism of dependency graphs: between defined refs, edges correspond both
      ways, and the output has no other edge. */
  ghost predicate Isomorphic(doc: Json)
    requires Normalize(doc).Some?
  {
    var refs, m, out := RefList(Objects(doc)), Renaming(doc), Normalize(doc).value;
    && (forall u, v :: u in refs && v in refs ==>
          (HasEdge(doc, u, v) <==> HasEdge(out, Rename(m, u), Rename(m, v))))
    && (forall x, y :: HasEdge(out, x, y) ==>
          exists u, v :: u in refs && v in refs && HasEdge(doc, u, v) && Rename(m, u) == x && Rename(m, v) == y)
  }

  /** Beside its edge to `v`, `u` has one to a ref that the renaming turns into `v`. */
  ghost predicate Doubled(doc: Json, u: Text, v: Text) {
    exists r :: r in RefList(Objects(doc)) && HasEdge(doc, u, r) && Rename(Renaming(doc), r) == v
  }

  /** Every edge starts at a defined ref, and ends at one or doubles an edge that does. */
  ghost predicate EdgesAccounted(doc: Json) {
    forall u, v :: HasEdge(doc, u, v) ==>
      u in RefList(Objects(doc)) && (v in RefList(Objects(doc)) || Doubled(doc, u, v))
  }

  lemma {:induction false} ParentMembers(deps: seq<Json>, r: Text)
    ensures r in ParentList(deps) <==> exists i :: 0 <= i < |deps| && DepRef(deps[i]) == Some(r)
  {
    if deps != [] {
      var n := |deps| - 1;
      ParentMembers(deps[..n], r);
      if i :| 0 <= i < |deps| && DepRef(deps[i]) == Some(r) {
        assert i < n ==> deps[..n][i] == deps[i];
      }
    }
  }

  lemma {:induction false} ParentsDiffer(deps: seq<Json>, i: nat, j: nat, r: Text)
    requires NoDup(ParentList(deps)) && i < j < |deps|
    ensures DepRef(deps[i]) != Some(r) || DepRef(deps[j]) != Some(r)
  {
    if DepRef(deps[i]) == Some(r) && DepRef(deps[j]) == Some(r) {
      assert deps[..j][i] == deps[i];
      ParentMembers(deps[..j], r);
      RepeatedParentIsBad(deps, j, r);
    }
  }

  lemma {:induction false} SameParent(deps: seq<Json>, i: int, j: int, x: Text, y: Text, y': Text)
    requires NoDup(ParentList(deps)) && EdgeAt(deps, i, x, y) && EdgeAt(deps, j, x, y')
    ensures i == j
  {
    if i < j {
      ParentsDiffer(deps, i, j, x);
    } else if j < i {
      ParentsDiffer(deps, j, i, x);
    }
  }

  /** The renaming merges no two parents of input edges, defined or not. */
  lemma {:induction false} ParentsStayApart(doc: Json, u: Text, v: Text, u': Text, v': Text)
    requires Normalize(doc).Some? && HasEdge(doc, u, v) && HasEdge(doc, u', v')
    requires Rename(Renaming(doc), u) == Rename(Renaming(doc), u')
    ensures u == u'
  {
    var m, clean := Renaming(doc), Cleaned(doc);
    CleanKeepsEdges(doc, u, v);
    CleanKeepsEdges(doc, u', v');
    var a := ListAt(clean.fields, "dependencies").value;
    ListOfMap(clean.fields, "dependencies", Renamer(m));
    var b := ListAt(Normalize(doc).value.fields, "dependencies").value;
    var i :| EdgeAt(a, i, u, v);
    var j :| EdgeAt(a, j, u', v');
    EdgeForth(a, b, i, Renamer(m), u, v);
    EdgeForth(a, b, j, Renamer(m), u', v');
    SameParent(b, i, j, Rename(m, u), Rename(m, v), Rename(m, v'));
  }

  /** Only refs are renamed. */
  lemma {:induction false} OthersKeepTheirName(doc: Json, s: Text)
    requires Normalize(doc).Some? && s !in RefList(Objects(doc))
    ensures Rename(Renaming(doc), s) == s
  {
    CleanKeepsRefs(doc);
    MappingKey(Objects(Cleaned(doc)), s);
  }

  lemma {:induction false} IsomorphicOnlyIf(doc: Json, u: Text, v: Text)
    requires Normalize(doc).Some? && Isomorphic(doc) && HasEdge(doc, u, v)
    ensures u in RefList(Objects(doc)) && (v in RefList(Objects(doc)) || Doubled(doc, u, v))
  {
    var refs, m, out := RefList(Objects(doc)), Renaming(doc), Normalize(doc).value;
    OutputEdges(doc, Rename(m, u), Rename(m, v));
    assert HasEdge(out, Rename(m, u), Rename(m, v));
    var u', v' :| u' in refs && v' in refs && HasEdge(doc, u', v')
                    && Rename(m, u') == Rename(m, u) && Rename(m, v') == Rename(m, v);
    ParentsStayApart(doc, u, v, u', v');
    if v !in refs {
      OthersKeepTheirName(doc, v);
    }
  }

  /** An output edge comes from an input edge between refs. */
  lemma {:induction false} EdgeFromRefs(doc: Json, x: Text, y: Text) returns (u: Text, v: Text)
    requires Normalize(doc).Some? && EdgesAccounted(doc) && HasEdge(Normalize(doc).value, x, y)
    ensures u in RefList(Objects(doc)) && v in RefList(Objects(doc)) && HasEdge(doc, u, v)
    ensures Rename(Renaming(doc), u) == x && Rename(Renaming(doc), v) == y
  {
    var refs, m := RefList(Objects(doc)), Renaming(doc);
    OutputEdges(doc, x, y);
    u, v :| HasEdge(doc, u, v) && Rename(m, u) == x && Rename(m, v) == y;
    if v !in refs {
      OthersKeepTheirName(doc, v);
      assert Doubled(doc, u, v);
      v :| v in refs && HasEdge(doc, u, v) && Rename(m, v) == y;
    }
  }

  lemma {:induction false} IsomorphicIf(doc: Json)
    requires Normalize(doc).Some? && EdgesAccounted(doc)
    ensures Isomorphic(doc)
  {
    var refs, m, out := RefList(Objects(doc)), Renaming(doc), Normalize(doc).value;
    RenamingIsBijective(doc);
    forall u, v | u in refs && v in refs ensures HasEdge(doc, u, v) <==> HasEdge(out, Rename(m, u), Rename(m, v)) {
      OutputEdges(doc, Rename(m, u), Rename(m, v));
      if HasEdge(out, Rename(m, u), Rename(m, v)) {
        var u', v' := EdgeFromRefs(doc, Rename(m, u), Rename(m, v));
        assert u' == u && v' == v;
      }
    }
    forall x, y | HasEdge(out, x, y)
      ensures exists u, v :: u in refs && v in refs && HasEdge(doc, u, v) && Rename(m, u) == x && Rename(m, v) == y
    {
      var u, v := EdgeFromRefs(doc, x, y);
    }
  }

  /** When normalization succeeds, the output graph is isomorphic to the input's exactly when every
      input edge starts at a defined ref and ends at one, or doubles an edge that does. */
  lemma {:induction false} GraphIsPreservedExactlyWhen(doc: Json)
    requires Normalize(doc).Some?
    ensures Isomorphic(doc) <==> EdgesAccounted(doc)
  {
    if Isomorphic(doc) {
      forall u, v | HasEdge(doc, u, v)
        ensures u in RefList(Objects(doc)) && (v in RefList(Objects(doc)) || Doubled(doc, u, v))
      {
        IsomorphicOnlyIf(doc, u, v);
      }
    }
    if EdgesAccounted(doc) {
      IsomorphicIf(doc);
    }
  }

  /** In particular it is when the input's edges all join defined refs. */
  lemma {:induction false} GraphIsPreserved(doc: Json)
    requires Normalize(doc).Some? && EdgesDefined(doc)
    ensures Isomorphic(doc)
  {
    assert EdgesAccounted(doc);
    IsomorphicIf(doc);
  }

  /** Where normalization succeeds although an input edge has a dangling end, that end equals the
      package URL that replaces some local ref, and is captured by it. */
  lemma {:induction false} DanglingIsCaptured(doc: Json, u: Text, v: Text, end: Text)
    requires Normalize(doc).Some? && HasEdge(doc, u, v) && (end == u || end == v)
    requires end !in RefList(Objects(doc))
    ensures exists r :: r in RefList(Objects(doc)) && Local(r) && Rename(Renaming(doc), r) == end
  {
    var refs, m, out := RefList(Objects(doc)), Renaming(doc), Normalize(doc).value;
    CleanKeepsRefs(doc);
    MappingKey(Objects(Cleaned(doc)), end);
    assert Rename(m, end) == end;
    OutputEdges(doc, Rename(m, u), Rename(m, v));
    EdgeIsDefined(out, Rename(m, u), Rename(m, v));
    RenamingIsBijective(doc);
    var outRefs := RefList(Objects(out));
    var k :| 0 <= k < |outRefs| && outRefs[k] == end;
    assert Rename(m, refs[k]) == end && refs[k] in refs;
    MappingKey(Objects(Cleaned(doc)), refs[k]);
  }

  lemma {:induction false} EdgeIsDefined(doc: Json, u: Text, v: Text)
    requires ValidSbom(doc) && HasEdge(doc, u, v)
    ensures u in RefList(Objects(doc)) && v in RefList(Objects(doc))
  {
    var deps := ListAt(doc.fields, "dependencies").value;
    var i :| EdgeAt(deps, i, u, v);
    assert DepOk(deps[i], Definitions(doc));
    var cs := ListAt(deps[i].fields, "dependsOn").value;
    var k :| 0 <= k < |cs| && cs[k] == Str(v);
    assert ChildOk(cs[k], Definitions(doc));
  }

  // ---------- normalizing twice ----------

  lemma {:induction false} CleanOrIsIdempotent(s: Text)
    ensures CleanOr(CleanOr(s)) == CleanOr(s)
  {
    if PKG <= s {
      CleanMeans(s);
    }
  }

  lemma {:induction false} RenamedPurlIsClean(nodes: seq<Fields>, s: Text)
    requires Renamable(nodes) && Clean(s).Some?
    ensures var w := Rename(Mapping(nodes), CleanOr(s)); PKG <= w && Clean(w) == Some(w)
  {
    CleanMeans(s);
    MappingKey(nodes, CleanOr(s));
    if CleanOr(s) in Mapping(nodes) {
      var v :| PKG <= v && Clean(v) == Some(Mapping(nodes)[CleanOr(s)]);
      CleanMeans(v);
    }
  }

  lemma {:induction false} OutputPurlOk(nodes: seq<Fields>, node: Fields)
    requires Renamable(nodes) && (Lookup(node, "purl").Some? ==> PurlOf(node).Some?)
    ensures var out := MapFields(MapFields(node, Cleaner()), Renamer(Mapping(nodes)));
            Lookup(out, "purl").Some? ==> PurlOf(out).Some?
  {
    LookupOfMap(node, "purl", Cleaner());
    LookupOfMap(MapFields(node, Cleaner()), "purl", Renamer(Mapping(nodes)));
    if Lookup(node, "purl").Some? {
      var s := Lookup(node, "purl").value.s;
      assert Clean(s) == PurlOf(node);
      RenamedPurlIsClean(nodes, s);
    }
  }

  /** Package URLs of the output are already clean. */
  lemma {:induction false} OutputPurlsOk(doc: Json)
    requires Normalize(doc).Some?
    ensures PurlsOk(Objects(Normalize(doc).value))
  {
    ObjectsOfMap(doc, false, Cleaner());
    ObjectsOfMap(Cleaned(doc), false, Renamer(Renaming(doc)));
    var nodes, outs := Objects(doc), Objects(Normalize(doc).value);
    forall i | 0 <= i < |outs| ensures Lookup(outs[i], "purl").Some? ==> PurlOf(outs[i]).Some? {
      OutputPurlOk(Objects(Cleaned(doc)), nodes[i]);
    }
  }

  /** A renamed clean package URL is clean. */
  lemma {:induction false} RenamedStaysClean(nodes: seq<Fields>, s: Text)
    requires Renamable(nodes)
    ensures var w := Rename(Mapping(nodes), CleanOr(s)); CleanOr(w) == w
  {
    CleanOrIsIdempotent(s);
    MappingKey(nodes, CleanOr(s));
    if CleanOr(s) in Mapping(nodes) {
      var v :| PKG <= v && Clean(v) == Some(Mapping(nodes)[CleanOr(s)]);
      CleanMeans(v);
    }
  }

  lemma {:induction false} OutputIsClean(doc: Json)
    requires Normalize(doc).Some?
    ensures Cleaned(Normalize(doc).value) == Normalize(doc).value
  {
    var m, out := Renaming(doc), Normalize(doc).value;
    LeavesOfMap(doc, false, Cleaner());
    LeavesOfMap(Cleaned(doc), false, Renamer(m));
    forall l | l in Leaves(out, false) ensures Cleaner()(l) == l.text {
      if l.purl {
        var i :| 0 <= i < |Leaves(out, false)| && Leaves(out, false)[i] == l;
        var s := Leaves(doc, false)[i].text;
        assert l.text == Rename(m, CleanOr(s));
        RenamedStaysClean(Objects(Cleaned(doc)), s);
      }
    }
    MapNothing(out, false, Cleaner());
  }

  lemma {:induction false} ValidHasNoLocalRefs(doc: Json, i: nat)
    requires ValidSbom(doc) && i < |Objects(doc)|
    ensures LocalRef(Objects(doc)[i]).None?
  {
    var node := Objects(doc)[i];
    if RefOf(node).Some? {
      FieldIsLeaf(doc, false, node, "bom-ref");
    }
  }

  lemma {:induction false} NoLocalRefsNoMapping(nodes: seq<Fields>)
    requires forall i :: 0 <= i < |nodes| ==> LocalRef(nodes[i]).None?
    ensures Mapping(nodes) == map[] && Renamable(nodes)
  {
    forall r ensures r !in Mapping(nodes) {
      DictionaryMeans(Entries(nodes), r);
    }
  }

  /** The output of normalization is valid, and normalizing it again changes nothing. */
  lemma {:induction false} NormalizeIsIdempotent(doc: Json)
    requires Normalize(doc).Some?
    ensures ValidSbom(Normalize(doc).value)
    ensures Normalize(Normalize(doc).value) == Normalize(doc)
  {
    var out := Normalize(doc).value;
    OutputPurlsOk(doc);
    OutputIsClean(doc);
    forall i | 0 <= i < |Objects(out)| ensures LocalRef(Objects(out)[i]).None? {
      ValidHasNoLocalRefs(out, i);
    }
    NoLocalRefsNoMapping(Objects(out));
    MapNothing(out, false, Renamer(map[]));
  }

  // ---------- the output does not depend on how local refs are spelled ----------

  lemma {:induction false} LocalIsNonEmpty(s: Text)
    requires Local(s)
    ensures s != []
  {
  }

  /** `rho` renames local refs of `c` to other local strings, one to one, without touching package
      URLs and without colliding with strings that keep their spelling. */
  ghost predicate RenamesLocalRefs(c: Json, rho: map<Text, Text>) {
    && (forall r :: r in rho ==> Local(r) && Local(rho[r]) && r in RefList(Objects(c)))
    && (forall r, r' :: r in rho && r' in rho && rho[r] == rho[r'] ==> r == r')
    && (forall l :: l in Leaves(c, false) && l.purl ==> l.text !in rho)
    && (forall l, r :: l in Leaves(c, false) && r in rho && l.text == rho[r] ==> l.text in rho)
  }

  lemma {:induction false} RenameIsInjective(c: Json, rho: map<Text, Text>, l: Leaf, l': Leaf)
    requires RenamesLocalRefs(c, rho) && l in Leaves(c, false) && l' in Leaves(c, false)
    requires Rename(rho, l.text) == Rename(rho, l'.text)
    ensures l.text == l'.text
  {
  }

  lemma {:induction false} RefRenamed(node: Fields, rho: map<Text, Text>)
    ensures RefOf(MapFields(node, Renamer(rho)))
         == match RefOf(node) case None => None case Some(r) => Some(Rename(rho, r))
    ensures Lookup(MapFields(node, Renamer(rho)), "bom-ref").None? <==> Lookup(node, "bom-ref").None?
  {
    LookupOfMap(node, "bom-ref", Renamer(rho));
  }

  lemma {:induction false} RefKindKept(c: Json, rho: map<Text, Text>, node: Fields)
    requires RenamesLocalRefs(c, rho)
    ensures RefOk(MapFields(node, Renamer(rho))) <==> RefOk(node)
    ensures LocalRef(MapFields(node, Renamer(rho))).Some? <==> LocalRef(node).Some?
  {
    RefRenamed(node, rho);
    if RefOf(node).Some? && RefOf(node).value in rho {
      LocalIsNonEmpty(RefOf(node).value);
      LocalIsNonEmpty(rho[RefOf(node).value]);
    }
  }

  lemma {:induction false} PurlFieldKept(c: Json, rho: map<Text, Text>, text: Text)
    requires RenamesLocalRefs(c, rho) && Leaf(true, text) in Leaves(c, false)
    ensures Map(Str(text), true, Renamer(rho)) == Str(text)
  {
  }

  /** The package URL depends on the string under "purl" alone. */
  lemma {:induction false} PurlOfText(node: Fields, other: Fields)
    requires Lookup(node, "purl") == Lookup(other, "purl")
          || (Lookup(node, "purl").Some? && Lookup(other, "purl").Some?
              && !Lookup(node, "purl").value.Str? && !Lookup(other, "purl").value.Str?)
    ensures PurlOf(node) == PurlOf(other)
  {
  }

  lemma {:induction false} PurlKept(c: Json, rho: map<Text, Text>, node: Fields)
    requires RenamesLocalRefs(c, rho) && node in Objects(c)
    ensures PurlOf(MapFields(node, Renamer(rho))) == PurlOf(node)
  {
    LookupOfMap(node, "purl", Renamer(rho));
    if Lookup(node, "purl").Some? && Lookup(node, "purl").value.Str? {
      FieldIsLeaf(c, false, node, "purl");
      PurlFieldKept(c, rho, Lookup(node, "purl").value.s);
    }
    PurlOfText(node, MapFields(node, Renamer(rho)));
  }

  lemma {:induction false} NodeRenamed(c: Json, rho: map<Text, Text>, i: nat)
    requires RenamesLocalRefs(c, rho) && i < |Objects(c)|
    ensures var node := Objects(c)[i];
      var node' := MapFields(node, Renamer(rho));
      && RefOf(node') == (match RefOf(node) case None => None case Some(r) => Some(Rename(rho, r)))
      && (RefOk(node') <==> RefOk(node))
      && (LocalRef(node').Some? <==> LocalRef(node).Some?)
      && PurlOf(node') == PurlOf(node)
  {
    var node := Objects(c)[i];
    RefRenamed(node, rho);
    RefKindKept(c, rho, node);
    PurlKept(c, rho, node);
  }

  lemma {:induction false} RefsStayDistinct(c: Json, rho: map<Text, Text>)
    requires RenamesLocalRefs(c, rho)
    ensures NoDup(RefList(MapNodes(Objects(c), Renamer(rho)))) <==> NoDup(RefList(Objects(c)))
  {
    var refs := RefList(Objects(c));
    RefListOfMap(Objects(c), Renamer(rho));
    var refs' := RefList(MapNodes(Objects(c), Renamer(rho)));
    forall i, j | 0 <= i < j < |refs| ensures refs[i] == refs[j] <==> refs'[i] == refs'[j] {
      RefsAreLeaves(c, refs[i]);
      RefsAreLeaves(c, refs[j]);
      if refs'[i] == refs'[j] {
        RenameIsInjective(c, rho, Leaf(false, refs[i]), Leaf(false, refs[j]));
      }
    }
  }

  /** A local ref leads to the same package URL before and after the renaming. */
  lemma {:induction false} MappedAlike(c: Json, rho: map<Text, Text>, s: Text)
    requires RenamesLocalRefs(c, rho) && NoDup(RefList(Objects(c))) && Renamable(Objects(c))
    requires s in Mapping(Objects(c))
    ensures var m' := Mapping(MapNodes(Objects(c), Renamer(rho)));
            Rename(rho, s) in m' && m'[Rename(rho, s)] == Mapping(Objects(c))[s]
  {
    var nodes, nodes' := Objects(c), MapNodes(Objects(c), Renamer(rho));
    RefsStayDistinct(c, rho);
    MappingKey(nodes, s);
    RefListMembers(nodes, s);
    var i :| 0 <= i < |nodes| && RefOf(nodes[i]) == Some(s);
    EntryMeans(nodes[i]);
    NodeRenamed(c, rho, i);
    EntryMeans(nodes'[i]);
    MappingAt(nodes, i, s);
    MappingAt(nodes', i, Rename(rho, s));
  }

  /** A string that keeps its spelling is no renamed ref, unless it was that ref before. */
  lemma {:induction false} KeptIsNoNewRef(c: Json, rho: map<Text, Text>, l: Leaf, i: nat)
    requires RenamesLocalRefs(c, rho) && l in Leaves(c, false) && l.text !in rho && i < |Objects(c)|
    requires RefOf(MapFields(Objects(c)[i], Renamer(rho))) == Some(l.text)
    ensures RefOf(Objects(c)[i]) == Some(l.text)
  {
    RefRenamed(Objects(c)[i], rho);
  }

  /** Other strings are not mapped after the renaming either. */
  lemma {:induction false} UnmappedAlike(c: Json, rho: map<Text, Text>, l: Leaf)
    requires RenamesLocalRefs(c, rho) && l in Leaves(c, false)
    requires Renamable(Objects(c)) && Renamable(MapNodes(Objects(c), Renamer(rho)))
    requires l.text !in Mapping(Objects(c))
    ensures l.text !in rho && l.text !in Mapping(MapNodes(Objects(c), Renamer(rho)))
  {
    var nodes, nodes', s := Objects(c), MapNodes(Objects(c), Renamer(rho)), l.text;
    MappingKey(nodes, s);
    assert s !in rho;
    MappingKey(nodes', s);
    RefListMembers(nodes, s);
    RefListMembers(nodes', s);
    forall i | 0 <= i < |nodes'| && Local(s) ensures RefOf(nodes'[i]) != Some(s) {
      if RefOf(nodes'[i]) == Some(s) {
        KeptIsNoNewRef(c, rho, l, i);
      }
    }
  }

  /** Following `rho` and then the renamed document's mapping is following the original mapping. */
  lemma {:induction false} MappingsAgree(c: Json, rho: map<Text, Text>, l: Leaf)
    requires RenamesLocalRefs(c, rho) && l in Leaves(c, false)
    requires NoDup(RefList(Objects(c))) && Renamable(Objects(c)) && Renamable(MapNodes(Objects(c), Renamer(rho)))
    ensures Rename(Mapping(MapNodes(Objects(c), Renamer(rho))), Rename(rho, l.text))
         == Rename(Mapping(Objects(c)), l.text)
  {
    if l.text in Mapping(Objects(c)) {
      MappedAlike(c, rho, l.text);
    } else {
      UnmappedAlike(c, rho, l);
    }
  }

  /** Two inputs that clean to the same document up to a renaming of local refs normalize alike. */
  lemma {:induction false} SpellingOfLocalRefsIsIrrelevant(doc: Json, doc': Json, rho: map<Text, Text>)
    requires PurlsOk(Objects(doc)) && PurlsOk(Objects(doc'))
    requires RenamesLocalRefs(Cleaned(doc), rho)
    requires Cleaned(doc') == Map(Cleaned(doc), false, Renamer(rho))
    ensures Normalize(doc') == Normalize(doc)
  {
    var c := Cleaned(doc);
    ObjectsOfMap(c, false, Renamer(rho));
    NodesStayGood(c, rho);
    if GoodRefs(Objects(c)) && Renamable(Objects(c)) {
      SameRewriting(c, rho);
    }
  }

  lemma {:induction false} NodesStayGood(c: Json, rho: map<Text, Text>)
    requires RenamesLocalRefs(c, rho)
    ensures var nodes, nodes' := Objects(c), MapNodes(Objects(c), Renamer(rho));
      (GoodRefs(nodes') <==> GoodRefs(nodes)) && (Renamable(nodes') <==> Renamable(nodes))
  {
    var nodes, nodes' := Objects(c), MapNodes(Objects(c), Renamer(rho));
    RefsStayDistinct(c, rho);
    forall i | 0 <= i < |nodes|
      ensures RefOk(nodes'[i]) <==> RefOk(nodes[i])
      ensures LocalRef(nodes'[i]).Some? <==> LocalRef(nodes[i]).Some?
      ensures PurlOf(nodes'[i]) == PurlOf(nodes[i])
    {
      NodeRenamed(c, rho, i);
    }
  }

  lemma {:induction false} SameRewriting(c: Json, rho: map<Text, Text>)
    requires RenamesLocalRefs(c, rho) && GoodRefs(Objects(c)) && Renamable(Objects(c))
    ensures var m, m' := Mapping(Objects(c)), Mapping(MapNodes(Objects(c), Renamer(rho)));
            Map(Map(c, false, Renamer(rho)), false, Renamer(m')) == Map(c, false, Renamer(m))
  {
    NodesStayGood(c, rho);
    var m, m' := Mapping(Objects(c)), Mapping(MapNodes(Objects(c), Renamer(rho)));
    forall l | l in Leaves(c, false)
      ensures Renamer(m')(Leaf(l.purl, Renamer(rho)(l))) == Renamer(m)(l)
    {
      MappingsAgree(c, rho, l);
    }
    MapMap(c, false, Renamer(rho), Renamer(m'), Renamer(m));
  }

  // ---------- the imperative code ----------

  lemma {:induction false} RefListPrefix(nodes: seq<Fields>, n: nat)
    requires n <= |nodes|
    ensures |RefList(nodes[..n])| <= |RefList(nodes)|
    ensures RefList(nodes[..n]) == RefList(nodes)[..|RefList(nodes[..n])|]
  {
    if n == |nodes| {
      assert nodes[..n] == nodes;
    } else {
      var k := |nodes| - 1;
      RefListPrefix(nodes[..k], n);
      assert nodes[..k][..n] == nodes[..n];
    }
  }

  lemma {:induction false} RepeatIsBad(nodes: seq<Fields>, n: nat, r: Text)
    requires n < |nodes| && RefOf(nodes[n]) == Some(r) && r in RefList(nodes[..n])
    ensures !NoDup(RefList(nodes))
  {
    RefListPrefix(nodes, n + 1);
    assert nodes[..n + 1][..n] == nodes[..n];
    var init, all := RefList(nodes[..n]), RefList(nodes);
    assert RefList(nodes[..n + 1]) == init + [r];
    var k :| 0 <= k < |init| && init[k] == r;
    assert all[k] == r && all[|init|] == r;
  }

  /** One round of either loop over bom-refs: malformed and repeated refs are refused. */
  method AddRef(nodes: seq<Fields>, n: nat, seen: set<Text>) returns (r: Option<set<Text>>)
    requires n < |nodes| && NoDup(RefList(nodes[..n])) && seen == RefSet(nodes[..n])
    ensures r.Some? ==> RefOk(nodes[n]) && NoDup(RefList(nodes[..n + 1]))
    ensures r.Some? ==> r.value == RefSet(nodes[..n + 1])
    ensures r.None? ==> !GoodRefs(nodes)
  {
    assert nodes[..n + 1][..n] == nodes[..n];
    var ref := Lookup(nodes[n], "bom-ref");
    if ref.None? {
      return Some(seen);
    }
    if !(ref.value.Str? && ref.value.s != []) {
      return None;
    }
    if ref.value.s in seen {
      RepeatIsBad(nodes, n, ref.value.s);
      return None;
    }
    return Some(seen + {ref.value.s});
  }

  /** The loop of `validate_sbom` over bom-refs; None when one is malformed or repeated. */
  method CollectDefinitions(nodes: seq<Fields>) returns (r: Option<set<Text>>)
    ensures r.Some? <==> GoodRefs(nodes)
    ensures r.Some? ==> r.value == RefSet(nodes)
  {
    var definitions: set<Text> := {};
    for n := 0 to |nodes|
      invariant definitions == RefSet(nodes[..n])
      invariant forall i :: 0 <= i < n ==> RefOk(nodes[i])
      invariant NoDup(RefList(nodes[..n]))
    {
      var more := AddRef(nodes, n, definitions);
      if more.None? {
        return None;
      }
      definitions := more.value;
    }
    assert nodes[..|nodes|] == nodes;
    r := Some(definitions);
  }

  lemma {:induction false} ParentListPrefix(deps: seq<Json>, n: nat)
    requires n <= |deps|
    ensures |ParentList(deps[..n])| <= |ParentList(deps)|
    ensures ParentList(deps[..n]) == ParentList(deps)[..|ParentList(deps[..n])|]
  {
    if n == |deps| {
      assert deps[..n] == deps;
    } else {
      var k := |deps| - 1;
      ParentListPrefix(deps[..k], n);
      assert deps[..k][..n] == deps[..n];
    }
  }

  lemma {:induction false} RepeatedParentIsBad(deps: seq<Json>, n: nat, r: Text)
    requires n < |deps| && DepRef(deps[n]) == Some(r) && r in ParentList(deps[..n])
    ensures !NoDup(ParentList(deps))
  {
    ParentListPrefix(deps, n + 1);
    assert deps[..n + 1][..n] == deps[..n];
    var init, all := ParentList(deps[..n]), ParentList(deps);
    assert ParentList(deps[..n + 1]) == init + [r];
    var k :| 0 <= k < |init| && init[k] == r;
    assert all[k] == r && all[|init|] == r;
  }

  /** The loop of `validate_sbom` over the dependency entries. */
  method CheckDependencies(deps: seq<Json>, definitions: set<Text>) returns (ok: bool)
    ensures ok <==> (forall i :: 0 <= i < |deps| ==> DepOk(deps[i], definitions)) && NoDup(ParentList(deps))
  {
    var parents: set<Text> := {};
    for n := 0 to |deps|
      invariant parents == set x | x in ParentList(deps[..n])
      invariant forall i :: 0 <= i < n ==> DepOk(deps[i], definitions)
      invariant NoDup(ParentList(deps[..n]))
    {
      assert deps[..n + 1][..n] == deps[..n];
      var ref := DepRef(deps[n]);
      if ref.None? || ref.value !in definitions {
        return false;
      }
      if ref.value in parents {
        RepeatedParentIsBad(deps, n, ref.value);
        return false;
      }
      parents := parents + {ref.value};
      var children := ListAt(deps[n].fields, "dependsOn");
      if children.None? {
        return false;
      }
      for k := 0 to |children.value|
        invariant forall c :: 0 <= c < k ==> ChildOk(children.value[c], definitions)
      {
        if !ChildOk(children.value[k], definitions) {
          return false;
        }
      }
    }
    assert deps[..|deps|] == deps;
    ok := true;
  }

  /** `validate_sbom`. */
  method ValidateSbom(doc: Json) returns (ok: bool)
    ensures ok <==> ValidSbom(doc)
  {
    if !doc.Obj? || Lookup(doc.fields, "bomFormat") != Some(Str(CYCLONE_DX)) {
      return false;
    }
    var nodes := Objects(doc);
    for n := 0 to |nodes|
      invariant forall i :: 0 <= i < n ==> SectionsOk(nodes[i])
    {
      if !SectionsOk(nodes[n]) {
        return false;
      }
    }
    var definitions := CollectDefinitions(nodes);
    if definitions.None? {
      return false;
    }
    var deps := ListAt(doc.fields, "dependencies");
    if deps.None? {
      return false;
    }
    var depsOk := CheckDependencies(deps.value, definitions.value);
    if !depsOk {
      return false;
    }
    var leaves := Leaves(doc, false);
    for n := 0 to |leaves|
      invariant forall i :: 0 <= i < n ==> !Local(leaves[i].text)
    {
      if Local(leaves[n].text) {
        assert leaves[n] in leaves;
        return false;
      }
    }
    ok := true;
  }

  lemma {:induction false} DictionaryStep(es: seq<Option<(Text, Text)>>, e: Option<(Text, Text)>)
    ensures Dictionary(es + [e])
         == match e case None => Dictionary(es) case Some((k, v)) => Dictionary(es)[k := v]
  {
    assert (es + [e])[..|es|] == es;
  }

  lemma {:induction false} EntriesSnoc(nodes: seq<Fields>, node: Fields)
    ensures Entries(nodes + [node]) == Entries(nodes) + [EntryOf(node)]
  {
    var all := nodes + [node];
    forall i | 0 <= i < |all| ensures Entries(all)[i] == (Entries(nodes) + [EntryOf(node)])[i] {
      assert Entries(all)[i] == EntryOf(all[i]);
    }
  }

  lemma {:induction false} EntriesStep(nodes: seq<Fields>, n: nat)
    requires n < |nodes|
    ensures Mapping(nodes[..n + 1])
         == match EntryOf(nodes[n])
            case None => Mapping(nodes[..n])
            case Some((k, v)) => Mapping(nodes[..n])[k := v]
  {
    var e := EntryOf(nodes[n]);
    assert nodes[..n + 1] == nodes[..n] + [nodes[n]];
    EntriesSnoc(nodes[..n], nodes[n]);
    DictionaryStep(Entries(nodes[..n]), e);
  }

  /** One round of the loop of `normalize_sbom`: the mapping entry of an object. */
  method ReadEntry(node: Fields) returns (ok: bool, entry: Option<(Text, Text)>)
    ensures ok <==> (LocalRef(node).Some? ==> PurlOf(node).Some?)
    ensures ok ==> entry == EntryOf(node)
  {
    var ref := RefOf(node);
    if ref.Some? && Local(ref.value) {
      var purl := PurlOf(node);
      if purl.None? {
        return false, None;
      }
      return true, Some((ref.value, purl.value));
    }
    return true, None;
  }

  /** The loop of `normalize_sbom`: `seen` and `mapping` over the objects of the cleaned copy. */
  method BuildMapping(nodes: seq<Fields>) returns (r: Option<map<Text, Text>>)
    ensures r.Some? <==> GoodRefs(nodes) && Renamable(nodes)
    ensures r.Some? ==> r.value == Mapping(nodes)
  {
    var seen: set<Text> := {};
    var mapping: map<Text, Text> := map[];
    for n := 0 to |nodes|
      invariant seen == RefSet(nodes[..n])
      invariant mapping == Mapping(nodes[..n])
      invariant forall i :: 0 <= i < n ==> RefOk(nodes[i])
      invariant forall i :: 0 <= i < n ==> (LocalRef(nodes[i]).Some? ==> PurlOf(nodes[i]).Some?)
      invariant NoDup(RefList(nodes[..n]))
    {
      EntriesStep(nodes, n);
      var more := AddRef(nodes, n, seen);
      if more.None? {
        return None;
      }
      seen := more.value;
      var ok, entry := ReadEntry(nodes[n]);
      if !ok {
        return None;
      }
      if entry.Some? {
        mapping := mapping[entry.value.0 := entry.value.1];
      }
    }
    assert nodes[..|nodes|] == nodes;
    r := Some(mapping);
  }

  /** `normalize_sbom`. */
  method NormalizeSbom(doc: Json) returns (r: Option<Json>)
    ensures r == Normalize(doc)
  {
    if !PurlsOk(Objects(doc)) {
      return None;
    }
    var clean := Cleaned(doc);
    var mapping := BuildMapping(Objects(clean));
    if mapping.None? {
      return None;
    }
    var out := Map(clean, false, Renamer(mapping.value));
    var ok := ValidateSbom(out);
    r := if ok then Some(out) else None;
  }
}
