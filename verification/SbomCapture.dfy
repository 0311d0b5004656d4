/** An SBOM whose dependency graph scripts/release_sbom.py changes. A component file:a has the package
    URL pkg:a, and another component depends on pkg:a, which is nobody's bom-ref. Normalization gives
    the first component that ref, and so captures the dangling edge. Most of the module evaluates the
    document by hand. */
module SbomCapture {
  import opened Bytes
  import opened Sequences
  import opened Purl
  import opened Json
  import opened Sbom

  /** "file:a" */
  const FILE_A: Text := [102, 105, 108, 101, 58, 97]

  /** "pkg:a" */
  const PKG_A: Text := [112, 107, 103, 58, 97]

  /** "b" */
  const B: Text := [98]

  function One(j: Json): Json { Arr(Item(j, NoItems)) }

  /** The component `ref`, known by its path, with the package URL pkg:a. */
  function Crate(ref: Text): Fields { Field("bom-ref", Str(ref), Field("purl", Str(PKG_A), NoFields)) }

  const USER := Field("bom-ref", Str(B), NoFields)

  const EDGE := Field("ref", Str(B), Field("dependsOn", One(Str(PKG_A)), NoFields))

  /** Components `ref` and b, and an edge from b to pkg:a, which is nobody's bom-ref unless `ref` is. */
  function Top(ref: Text): Fields {
    Field("bomFormat", Str(CYCLONE_DX),
    Field("components", Arr(Item(Obj(Crate(ref)), Item(Obj(USER), NoItems))),
    Field("dependencies", One(Obj(EDGE)), NoFields)))
  }

  function Doc(ref: Text): Json { Obj(Top(ref)) }

  // ---------- strings ----------

  lemma {:induction false} FileIsLocal()
    ensures Local(FILE_A)
  {
    PlainText(FILE_A);
    assert AtStart(FILE_A, 0) && FileAt(FILE_A, 0);
  }

  /** The colon of "file:" has four characters before it. */
  lemma {:induction false} NotLocal(s: Text)
    requires PERCENT !in s && forall i :: 4 <= i < |s| ==> s[i] != COLON
    ensures !Local(s)
  {
    PlainText(s);
    forall i ensures !FileAt(s, i) {
      assert 0 <= i && i + 5 <= |s| ==> s[i + 4] != COLON;
    }
  }

  lemma {:induction false} OthersAreNotLocal(s: Text)
    requires s == PKG_A || s == B || s == CYCLONE_DX
    ensures !Local(s)
  {
    NotLocal(s);
  }

  lemma {:induction false} PkgIsClean()
    ensures Clean(PKG_A) == Some(PKG_A)
  {
    PartitionMisses(PKG_A, HASH);
    PartitionMisses(PKG_A, QUESTION);
    assert Qualifiers(PKG_A) == [];
  }

  // ---------- the document ----------

  lemma {:induction false} LookUpTop(ref: Text, key: string)
    ensures Lookup(Top(ref), key) ==
      if key == "bomFormat" then Some(Str(CYCLONE_DX))
      else if key == "components" then Some(Arr(Item(Obj(Crate(ref)), Item(Obj(USER), NoItems))))
      else if key == "dependencies" then Some(One(Obj(EDGE)))
      else None
  {
    var deps := Field("dependencies", One(Obj(EDGE)), NoFields);
    var rest := Field("components", Arr(Item(Obj(Crate(ref)), Item(Obj(USER), NoItems))), deps);
    assert Lookup(deps, key) == if key == "dependencies" then Some(One(Obj(EDGE))) else Lookup(NoFields, key);
    assert key != "components" ==> Lookup(rest, key) == Lookup(deps, key);
  }

  lemma {:induction false} LookUpCrate(ref: Text, key: string)
    ensures Lookup(Crate(ref), key)
         == if key == "bom-ref" then Some(Str(ref)) else if key == "purl" then Some(Str(PKG_A)) else None
  {
    var rest := Field("purl", Str(PKG_A), NoFields);
    assert Lookup(rest, key) == if key == "purl" then Some(Str(PKG_A)) else Lookup(NoFields, key);
  }

  lemma {:induction false} LookUpUser(key: string)
    ensures Lookup(USER, key) == if key == "bom-ref" then Some(Str(B)) else None
  {
  }

  lemma {:induction false} LookUpEdge(key: string)
    ensures Lookup(EDGE, key)
         == if key == "ref" then Some(Str(B)) else if key == "dependsOn" then Some(One(Str(PKG_A))) else None
  {
    var rest := Field("dependsOn", One(Str(PKG_A)), NoFields);
    assert Lookup(rest, key) == if key == "dependsOn" then Some(One(Str(PKG_A))) else Lookup(NoFields, key);
  }

  lemma {:induction false} OneElement(j: Json)
    ensures Elements(One(j).items) == [j]
  {
    assert Elements(NoItems) == [];
  }

  lemma {:induction false} InNodes(ref: Text)
    ensures Objects(Obj(Crate(ref))) == [Crate(ref)] && Objects(Obj(USER)) == [USER] && Objects(Obj(EDGE)) == [EDGE]
    ensures LeavesInFields(Crate(ref)) == [Leaf(false, ref), Leaf(true, PKG_A)]
    ensures LeavesInFields(USER) == [Leaf(false, B)]
    ensures LeavesInFields(EDGE) == [Leaf(false, B), Leaf(false, PKG_A)]
  {
    var purl, children := Field("purl", Str(PKG_A), NoFields), Field("dependsOn", One(Str(PKG_A)), NoFields);
    assert ObjectsInFields(purl) == [] && LeavesInFields(purl) == [Leaf(true, PKG_A)];
    var child := Item(Str(PKG_A), NoItems);
    assert ObjectsInItems(child) == [] && LeavesInItems(child) == [Leaf(false, PKG_A)];
    assert ObjectsInFields(children) == [] && LeavesInFields(children) == [Leaf(false, PKG_A)];
    assert ObjectsInFields(EDGE) == [] && ObjectsInFields(USER) == [] && ObjectsInFields(Crate(ref)) == [];
  }

  lemma {:induction false} InDoc(ref: Text)
    ensures Objects(Doc(ref)) == [Top(ref), Crate(ref), USER, EDGE]
    ensures Leaves(Doc(ref), false)
         == [Leaf(false, CYCLONE_DX), Leaf(false, ref), Leaf(true, PKG_A),
             Leaf(false, B), Leaf(false, B), Leaf(false, PKG_A)]
  {
    InNodes(ref);
    var users := Item(Obj(USER), NoItems);
    var components := Arr(Item(Obj(Crate(ref)), users));
    var deps := Field("dependencies", One(Obj(EDGE)), NoFields);
    assert ObjectsInItems(users) == [USER] && LeavesInItems(users) == LeavesInFields(USER);
    assert Objects(components) == [Crate(ref), USER];
    assert LeavesInItems(components.items) == LeavesInFields(Crate(ref)) + LeavesInFields(USER);
    var edges := Item(Obj(EDGE), NoItems);
    assert ObjectsInItems(edges) == [EDGE] && LeavesInItems(edges) == LeavesInFields(EDGE);
    assert ObjectsInFields(deps) == [EDGE] && LeavesInFields(deps) == LeavesInFields(EDGE);
    var rest := Field("components", components, deps);
    assert ObjectsInFields(rest) == [Crate(ref), USER, EDGE];
    assert LeavesInFields(rest) == LeavesInFields(Crate(ref)) + LeavesInFields(USER) + LeavesInFields(EDGE);
    assert Top(ref) == Field("bomFormat", Str(CYCLONE_DX), rest);
    assert ObjectsInFields(Top(ref)) == [] + ObjectsInFields(rest);
    assert LeavesInFields(Top(ref)) == [Leaf(false, CYCLONE_DX)] + LeavesInFields(rest);
  }

  lemma {:induction false} RefsOfNodes(ref: Text)
    ensures RefOf(Top(ref)).None? && RefOf(Crate(ref)) == Some(ref) && RefOf(USER) == Some(B) && RefOf(EDGE).None?
    ensures ref != [] ==> RefOk(Top(ref)) && RefOk(Crate(ref)) && RefOk(USER) && RefOk(EDGE)
  {
    LookUpTop(ref, "bom-ref");
    LookUpCrate(ref, "bom-ref");
    LookUpUser("bom-ref");
    LookUpEdge("bom-ref");
  }

  lemma {:induction false} FourNodes(a: Fields, b: Fields, c: Fields, d: Fields, r: Text, s: Text)
    requires RefOf(a).None? && RefOf(b) == Some(r) && RefOf(c) == Some(s) && RefOf(d).None?
    ensures RefList([a, b, c, d]) == [r, s]
  {
    var nodes := [a, b, c, d];
    assert nodes[..3] == [a, b, c] && [a, b, c][..2] == [a, b] && [a, b][..1] == [a] && [a][..0] == [];
    assert RefList([a]) == [] && RefList([a, b]) == [r] && RefList([a, b, c]) == [r, s];
  }

  lemma {:induction false} RefsOfDoc(ref: Text)
    ensures RefList(Objects(Doc(ref))) == [ref, B]
  {
    InDoc(ref);
    RefsOfNodes(ref);
    FourNodes(Top(ref), Crate(ref), USER, EDGE, ref, B);
  }

  lemma {:induction false} DependenciesOfDoc(ref: Text)
    ensures ListAt(Top(ref), "dependencies") == Some([Obj(EDGE)])
    ensures DepRef(Obj(EDGE)) == Some(B) && ListAt(EDGE, "dependsOn") == Some([Str(PKG_A)])
  {
    LookUpTop(ref, "dependencies");
    LookUpEdge("ref");
    LookUpEdge("dependsOn");
    OneElement(Obj(EDGE));
    OneElement(Str(PKG_A));
  }

  lemma {:induction false} EdgesOfDoc(ref: Text, u: Text, v: Text)
    ensures HasEdge(Doc(ref), u, v) <==> u == B && v == PKG_A
  {
    DependenciesOfDoc(ref);
    var deps, children := [Obj(EDGE)], [Str(PKG_A)];
    if u == B && v == PKG_A {
      assert children[0] == Str(v);
      assert EdgeAt(deps, 0, u, v);
    }
  }

  lemma {:induction false} SectionsOfDoc(ref: Text)
    ensures SectionsOk(Top(ref)) && SectionsOk(Crate(ref)) && SectionsOk(USER) && SectionsOk(EDGE)
  {
    forall key | key == "components" || key == "services"
      ensures Lookup(Crate(ref), key).None? && Lookup(USER, key).None? && Lookup(EDGE, key).None?
    {
      LookUpCrate(ref, key);
      LookUpUser(key);
      LookUpEdge(key);
    }
    LookUpTop(ref, "components");
    LookUpTop(ref, "services");
    OneElement(Obj(USER));
    assert Elements(Item(Obj(Crate(ref)), Item(Obj(USER), NoItems))) == [Obj(Crate(ref)), Obj(USER)];
  }

  lemma {:induction false} DefinitionsOfDoc()
    ensures Definitions(Doc(PKG_A)) == {PKG_A, B}
  {
    RefsOfDoc(PKG_A);
  }

  lemma {:induction false} SectionsOfFour(a: Fields, b: Fields, c: Fields, d: Fields)
    ensures var nodes := [a, b, c, d];
      SectionsOk(a) && SectionsOk(b) && SectionsOk(c) && SectionsOk(d) ==>
        forall i :: 0 <= i < |nodes| ==> SectionsOk(nodes[i])
  {
  }

  lemma {:induction false} NodesOfDocAreOk()
    ensures var nodes := Objects(Doc(PKG_A));
      GoodRefs(nodes) && forall i :: 0 <= i < |nodes| ==> SectionsOk(nodes[i])
  {
    SectionsOfFour(Top(PKG_A), Crate(PKG_A), USER, EDGE);
    InDoc(PKG_A);
    SectionsOfDoc(PKG_A);
    RefsOfNodes(PKG_A);
    RefsOfDoc(PKG_A);
    assert |PKG_A| != |B|;
    GoodFour(Top(PKG_A), Crate(PKG_A), USER, EDGE, PKG_A, B);
  }

  lemma {:induction false} LeavesOfDoc(l: Leaf)
    requires l in Leaves(Doc(PKG_A), false)
    ensures !Local(l.text)
  {
    InDoc(PKG_A);
    var k :| 0 <= k < |Leaves(Doc(PKG_A), false)| && Leaves(Doc(PKG_A), false)[k] == l;
    assert k == 0 || k == 1 || k == 2 || k == 3 || k == 4 || k == 5;
    OthersAreNotLocal(l.text);
  }

  lemma {:induction false} EdgeIsOk()
    ensures DepOk(Obj(EDGE), Definitions(Doc(PKG_A))) && ParentList([Obj(EDGE)]) == [B]
  {
    DependenciesOfDoc(PKG_A);
    DefinitionsOfDoc();
    assert [Obj(EDGE)][..0] == [] && ParentList([Obj(EDGE)]) == [] + [B];
  }

  /** With pkg:a as the component's own ref the document is valid. */
  lemma {:induction false} DocIsValid()
    ensures ValidSbom(Doc(PKG_A))
  {
    NodesOfDocAreOk();
    LookUpTop(PKG_A, "bomFormat");
    DependenciesOfDoc(PKG_A);
    EdgeIsOk();
    forall l | l in Leaves(Doc(PKG_A), false) ensures !Local(l.text) {
      LeavesOfDoc(l);
    }
  }

  // ---------- normalizing it ----------

  lemma {:induction false} PurlsOfNodes(ref: Text)
    ensures Lookup(Top(ref), "purl").None? && Lookup(USER, "purl").None? && Lookup(EDGE, "purl").None?
    ensures PurlOf(Crate(ref)) == Some(PKG_A)
  {
    LookUpTop(ref, "purl");
    LookUpCrate(ref, "purl");
    LookUpUser("purl");
    LookUpEdge("purl");
    PkgIsClean();
  }

  predicate PurlFine(node: Fields) { Lookup(node, "purl").Some? ==> PurlOf(node).Some? }

  lemma {:induction false} PurlsOfFour(a: Fields, b: Fields, c: Fields, d: Fields)
    requires PurlFine(a) && PurlFine(b) && PurlFine(c) && PurlFine(d)
    ensures PurlsOk([a, b, c, d])
  {
    var nodes := [a, b, c, d];
    forall i | 0 <= i < |nodes| ensures PurlFine(nodes[i]) {
      assert i == 0 || i == 1 || i == 2 || i == 3;
    }
  }

  lemma {:induction false} PurlsOfDoc(ref: Text)
    ensures PurlsOk(Objects(Doc(ref)))
  {
    InDoc(ref);
    PurlsOfNodes(ref);
    PurlsOfFour(Top(ref), Crate(ref), USER, EDGE);
  }

  lemma {:induction false} LeafIsClean(l: Leaf)
    requires l.purl ==> l.text == PKG_A
    ensures Cleaner()(l) == l.text
  {
    PkgIsClean();
  }

  lemma {:induction false} PurlLeaves(ref: Text, l: Leaf)
    requires l in Leaves(Doc(ref), false) && l.purl
    ensures l.text == PKG_A
  {
    InDoc(ref);
    var k :| 0 <= k < |Leaves(Doc(ref), false)| && Leaves(Doc(ref), false)[k] == l;
    assert k == 0 || k == 1 || k == 2 || k == 3 || k == 4 || k == 5;
  }

  lemma {:induction false} DocIsClean(ref: Text)
    ensures Cleaned(Doc(ref)) == Doc(ref)
  {
    forall l | l in Leaves(Doc(ref), false) ensures Cleaner()(l) == l.text {
      if l.purl {
        PurlLeaves(ref, l);
      }
      LeafIsClean(l);
    }
    MapNothing(Doc(ref), false, Cleaner());
  }

  /** Rewriting the component's ref to pkg:a, and nothing else, makes the other document. */
  lemma {:induction false} MapsToOther(g: Leaf -> Text)
    requires g(Leaf(false, FILE_A)) == PKG_A && g(Leaf(true, PKG_A)) == PKG_A && g(Leaf(false, PKG_A)) == PKG_A
    requires g(Leaf(false, B)) == B && g(Leaf(false, CYCLONE_DX)) == CYCLONE_DX
    ensures Map(Doc(FILE_A), false, g) == Doc(PKG_A)
  {
    var purl := Field("purl", Str(PKG_A), NoFields);
    assert MapFields(purl, g) == purl;
    assert MapFields(Crate(FILE_A), g) == Crate(PKG_A) && MapFields(USER, g) == USER;
    assert Map(One(Str(PKG_A)), false, g) == One(Str(PKG_A));
    var children := Field("dependsOn", One(Str(PKG_A)), NoFields);
    assert MapFields(children, g) == children;
    assert MapFields(EDGE, g) == EDGE;
    var users := Item(Obj(USER), NoItems);
    assert MapItems(users, g) == users;
    var deps := Field("dependencies", One(Obj(EDGE)), NoFields);
    assert MapItems(Item(Obj(EDGE), NoItems), g) == Item(Obj(EDGE), NoItems);
    assert MapFields(deps, g) == deps;
    assert MapItems(Item(Obj(Crate(FILE_A)), users), g) == Item(Obj(Crate(PKG_A)), users);
    assert MapFields(Field("components", Arr(Item(Obj(Crate(FILE_A)), users)), deps), g)
        == Field("components", Arr(Item(Obj(Crate(PKG_A)), users)), deps);
  }

  lemma {:induction false} LocalRefsOfNodes()
    ensures LocalRef(Top(FILE_A)).None? && LocalRef(USER).None? && LocalRef(EDGE).None?
    ensures LocalRef(Crate(FILE_A)) == Some(FILE_A)
  {
    RefsOfNodes(FILE_A);
    FileIsLocal();
    OthersAreNotLocal(B);
  }

  lemma {:induction false} GoodFour(a: Fields, b: Fields, c: Fields, d: Fields, r: Text, s: Text)
    requires RefOk(a) && RefOk(b) && RefOk(c) && RefOk(d) && r != s && RefList([a, b, c, d]) == [r, s]
    ensures GoodRefs([a, b, c, d])
  {
    var nodes := [a, b, c, d];
    forall i | 0 <= i < |nodes| ensures RefOk(nodes[i]) {
      assert i == 0 || i == 1 || i == 2 || i == 3;
    }
  }

  predicate Mapped(node: Fields) { LocalRef(node).Some? ==> PurlOf(node).Some? }

  lemma {:induction false} RenamableFour(a: Fields, b: Fields, c: Fields, d: Fields)
    requires Mapped(a) && Mapped(b) && Mapped(c) && Mapped(d)
    ensures Renamable([a, b, c, d])
  {
    var nodes := [a, b, c, d];
    forall i | 0 <= i < |nodes| ensures Mapped(nodes[i]) {
      assert i == 0 || i == 1 || i == 2 || i == 3;
    }
  }

  lemma {:induction false} RefsAreGood()
    ensures GoodRefs(Objects(Doc(FILE_A))) && Renamable(Objects(Doc(FILE_A)))
  {
    RefsOfDoc(FILE_A);
    InDoc(FILE_A);
    RefsOfNodes(FILE_A);
    PurlsOfNodes(FILE_A);
    LocalRefsOfNodes();
    assert |FILE_A| != |B|;
    GoodFour(Top(FILE_A), Crate(FILE_A), USER, EDGE, FILE_A, B);
    RenamableFour(Top(FILE_A), Crate(FILE_A), USER, EDGE);
  }

  lemma {:induction false} OneKey(nodes: seq<Fields>, r: Text)
    requires Renamable(nodes) && RefList(nodes) == [FILE_A, B]
    ensures r in Mapping(nodes) <==> r == FILE_A
  {
    MappingKey(nodes, r);
    FileIsLocal();
    OthersAreNotLocal(B);
    assert r in [FILE_A, B] <==> r == FILE_A || r == B;
  }

  lemma {:induction false} CrateIsMapped()
    ensures var nodes := Objects(Doc(FILE_A)); FILE_A in Mapping(nodes) && Mapping(nodes)[FILE_A] == PKG_A
  {
    RefsAreGood();
    InDoc(FILE_A);
    LocalRefsOfNodes();
    PurlsOfNodes(FILE_A);
    MappingAt(Objects(Doc(FILE_A)), 1, FILE_A);
  }

  lemma {:induction false} RenamingOfDoc()
    ensures Renaming(Doc(FILE_A)) == map[FILE_A := PKG_A]
  {
    var nodes := Objects(Doc(FILE_A));
    DocIsClean(FILE_A);
    RefsAreGood();
    RefsOfDoc(FILE_A);
    CrateIsMapped();
    forall r ensures r in Mapping(nodes) <==> r == FILE_A {
      OneKey(nodes, r);
    }
  }

  lemma {:induction false} NormalizesToOther()
    ensures Normalize(Doc(FILE_A)) == Some(Doc(PKG_A))
  {
    var m := map[FILE_A := PKG_A];
    PurlsOfDoc(FILE_A);
    DocIsClean(FILE_A);
    RefsAreGood();
    RenamingOfDoc();
    MapsToOther(Renamer(m));
    DocIsValid();
  }

  lemma {:induction false} RefsInDoc()
    ensures forall r :: r in RefList(Objects(Doc(FILE_A))) <==> r == FILE_A || r == B
  {
    RefsOfDoc(FILE_A);
    assert [FILE_A, B][0] == FILE_A && [FILE_A, B][1] == B;
  }

  /** Normalization invents a dependency: it accepts a document in which b has an edge to pkg:a, which
      is nobody's bom-ref, and none to the component file:a. In the output that component is called
      pkg:a, and b depends on it. */
  lemma {:induction false} CaptureInventsAnEdge()
    ensures var doc := Doc(FILE_A);
      && Normalize(doc) == Some(Doc(PKG_A))
      && FILE_A in RefList(Objects(doc)) && B in RefList(Objects(doc)) && PKG_A !in RefList(Objects(doc))
      && Rename(Renaming(doc), FILE_A) == PKG_A && Rename(Renaming(doc), B) == B
      && !HasEdge(doc, B, FILE_A) && HasEdge(Doc(PKG_A), B, PKG_A)
      && !Isomorphic(doc)
  {
    assert |PKG_A| != |FILE_A| && |B| != |FILE_A| && |PKG_A| != |B|;
    RefsInDoc();
    NormalizesToOther();
    RenamingOfDoc();
    EdgesOfDoc(FILE_A, B, FILE_A);
    EdgesOfDoc(PKG_A, B, PKG_A);
  }
}
