/** The rules of scripts/release_sbom.py in terms of the JSON document alone. */
module SbomRules {
  import opened Bytes
  import opened Sequences
  import opened Purl
  import opened Json
  import opened Sbom

  function Spell(t: Text): string { seq(|t|, i requires 0 <= i < |t| => t[i] as char) }

  /** The fixed strings, as characters. */
  lemma {:induction false} FixedStrings()
    ensures Spell(PKG) == "pkg:" && Spell(DOWNLOAD_URL) == "download_url" && Spell(CYCLONE_DX) == "CycloneDX"
  {
  }

  // ---------- validity ----------

  /** The string is some object's bom-ref. */
  ghost predicate Defined(doc: Json, r: Text) {
    exists i :: 0 <= i < |Objects(doc)| && Lookup(Objects(doc)[i], "bom-ref") == Some(Str(r))
  }

  ghost predicate DefinedString(doc: Json, j: Json) { j.Str? && Defined(doc, j.s) }

  /** Under the key there is nothing, or an array of objects. */
  ghost predicate ObjectsAt(node: Fields, key: string) {
    Lookup(node, key).None?
    || (exists items :: Lookup(node, key) == Some(Arr(items)) && forall x :: x in Elements(items) ==> x.Obj?)
  }

  /** A dependency entry: an object with a defined ref, whose dependsOn is absent or a list of defined refs. */
  ghost predicate EntryRule(doc: Json, d: Json) {
    && d.Obj? && Lookup(d.fields, "ref").Some? && DefinedString(doc, Lookup(d.fields, "ref").value)
    && (Lookup(d.fields, "dependsOn").None?
        || exists items :: Lookup(d.fields, "dependsOn") == Some(Arr(items))
                             && forall c :: c in Elements(items) ==> DefinedString(doc, c))
  }

  /** All that `validate_sbom` asks for. */
  ghost predicate Acceptable(doc: Json) {
    && doc.Obj? && Lookup(doc.fields, "bomFormat") == Some(Str(CYCLONE_DX))
    && (forall node :: node in Objects(doc) ==> ObjectsAt(node, "components") && ObjectsAt(node, "services"))
    && RefRule(Objects(doc))
    && (Lookup(doc.fields, "dependencies").None?
        || exists items :: Lookup(doc.fields, "dependencies") == Some(Arr(items)) && GraphRule(doc, Elements(items)))
    && (forall l :: l in Leaves(doc, false) ==> !Local(l.text))
  }

  /** Every bom-ref is a nonempty string, and no two objects have the same. */
  ghost predicate RefRule(nodes: seq<Fields>) {
    && (forall i :: 0 <= i < |nodes| ==>
          Lookup(nodes[i], "bom-ref").None? || exists r: Text :: r != [] && Lookup(nodes[i], "bom-ref") == Some(Str(r)))
    && (forall i, j :: 0 <= i < j < |nodes| && Lookup(nodes[i], "bom-ref").Some? ==>
          Lookup(nodes[i], "bom-ref") != Lookup(nodes[j], "bom-ref"))
  }

  /** Every entry follows its rule, and no two have the same ref. */
  ghost predicate GraphRule(doc: Json, deps: seq<Json>) {
    && (forall i :: 0 <= i < |deps| ==> EntryRule(doc, deps[i]))
    && (forall i, j :: 0 <= i < j < |deps| && deps[i].Obj? && deps[j].Obj? ==>
          Lookup(deps[i].fields, "ref") != Lookup(deps[j].fields, "ref"))
  }

  lemma {:induction false} DefinedMeans(doc: Json, r: Text)
    ensures Defined(doc, r) <==> r in Definitions(doc)
  {
    RefListMembers(Objects(doc), r);
    if Defined(doc, r) {
      var i :| 0 <= i < |Objects(doc)| && Lookup(Objects(doc)[i], "bom-ref") == Some(Str(r));
      assert RefOf(Objects(doc)[i]) == Some(r);
    }
  }

  lemma {:induction false} SectionRule(node: Fields)
    ensures SectionsOk(node) <==> ObjectsAt(node, "components") && ObjectsAt(node, "services")
  {
  }

  lemma {:induction false} ApartIsNoDup(nodes: seq<Fields>)
    requires forall i, j, r :: 0 <= i < j < |nodes| && RefOf(nodes[i]) == Some(r) ==> RefOf(nodes[j]) != Some(r)
    ensures NoDup(RefList(nodes))
  {
    if nodes != [] {
      var n := |nodes| - 1;
      assert forall i :: 0 <= i < n ==> nodes[..n][i] == nodes[i];
      ApartIsNoDup(nodes[..n]);
      if RefOf(nodes[n]).Some? {
        RefListMembers(nodes[..n], RefOf(nodes[n]).value);
      }
    }
  }

  lemma {:induction false} RefsRule(nodes: seq<Fields>)
    ensures GoodRefs(nodes) <==> RefRule(nodes)
  {
    if GoodRefs(nodes) {
      forall i, j | 0 <= i < j < |nodes| && Lookup(nodes[i], "bom-ref").Some?
        ensures Lookup(nodes[i], "bom-ref") != Lookup(nodes[j], "bom-ref")
      {
        assert RefOk(nodes[i]);
        if Lookup(nodes[i], "bom-ref") == Lookup(nodes[j], "bom-ref") {
          RefsDiffer(nodes, i, j, RefOf(nodes[i]).value);
        }
      }
      forall i | 0 <= i < |nodes| && Lookup(nodes[i], "bom-ref").Some?
        ensures exists r: Text :: r != [] && Lookup(nodes[i], "bom-ref") == Some(Str(r))
      {
        assert RefOk(nodes[i]);
        assert Lookup(nodes[i], "bom-ref") == Some(Str(Lookup(nodes[i], "bom-ref").value.s));
      }
    }
    if RefRule(nodes) {
      ApartIsNoDup(nodes);
    }
  }

  lemma {:induction false} ChildrenRule(doc: Json, children: seq<Json>)
    ensures (forall k :: 0 <= k < |children| ==> ChildOk(children[k], Definitions(doc))) <==>
            forall c :: c in children ==> DefinedString(doc, c)
  {
    forall c: Json ensures ChildOk(c, Definitions(doc)) <==> DefinedString(doc, c) {
      if c.Str? {
        DefinedMeans(doc, c.s);
      }
    }
    if forall c :: c in children ==> DefinedString(doc, c) {
      forall k | 0 <= k < |children| ensures ChildOk(children[k], Definitions(doc)) {
        assert children[k] in children;
      }
    }
  }

  lemma {:induction false} EntryRuleMeans(doc: Json, d: Json)
    ensures DepOk(d, Definitions(doc)) <==> EntryRule(doc, d)
  {
    forall r: Text ensures Defined(doc, r) <==> r in Definitions(doc) {
      DefinedMeans(doc, r);
    }
    if d.Obj? && Lookup(d.fields, "dependsOn").Some? && Lookup(d.fields, "dependsOn").value.Arr? {
      var items := Lookup(d.fields, "dependsOn").value.items;
      assert ListAt(d.fields, "dependsOn") == Some(Elements(items));
      ChildrenRule(doc, Elements(items));
    }
  }

  lemma {:induction false} ParentsApart(deps: seq<Json>)
    requires forall i, j, r :: 0 <= i < j < |deps| && DepRef(deps[i]) == Some(r) ==> DepRef(deps[j]) != Some(r)
    ensures NoDup(ParentList(deps))
  {
    if deps != [] {
      var n := |deps| - 1;
      assert forall i :: 0 <= i < n ==> deps[..n][i] == deps[i];
      ParentsApart(deps[..n]);
      if DepRef(deps[n]).Some? {
        ParentMembers(deps[..n], DepRef(deps[n]).value);
      }
    }
  }

  lemma {:induction false} GraphRuleMeans(doc: Json, deps: seq<Json>)
    ensures GraphRule(doc, deps) <==>
            (forall i :: 0 <= i < |deps| ==> DepOk(deps[i], Definitions(doc))) && NoDup(ParentList(deps))
  {
    forall i | 0 <= i < |deps| ensures DepOk(deps[i], Definitions(doc)) <==> EntryRule(doc, deps[i]) {
      EntryRuleMeans(doc, deps[i]);
    }
    if forall i :: 0 <= i < |deps| ==> DepOk(deps[i], Definitions(doc)) {
      if NoDup(ParentList(deps)) {
        forall i, j | 0 <= i < j < |deps| ensures Lookup(deps[i].fields, "ref") != Lookup(deps[j].fields, "ref") {
          ParentsDiffer(deps, i, j, DepRef(deps[i]).value);
        }
      }
      if GraphRule(doc, deps) {
        ParentsApart(deps);
      }
    }
  }

  /** A document is valid exactly when it is acceptable by those rules. */
  lemma {:induction false} ValidMeans(doc: Json)
    ensures ValidSbom(doc) <==> Acceptable(doc)
  {
    if doc.Obj? {
      var nodes := Objects(doc);
      forall i | 0 <= i < |nodes|
        ensures SectionsOk(nodes[i]) <==> ObjectsAt(nodes[i], "components") && ObjectsAt(nodes[i], "services")
      {
        SectionRule(nodes[i]);
      }
      RefsRule(nodes);
      GraphRuleMeans(doc, []);
      if Lookup(doc.fields, "dependencies").Some? && Lookup(doc.fields, "dependencies").value.Arr? {
        GraphRuleMeans(doc, Elements(Lookup(doc.fields, "dependencies").value.items));
      }
    }
  }

  // ---------- normalization ----------

  /** What the renaming does: exactly the local bom-refs are renamed, each to the cleaned package URL of
      its own object. */
  lemma {:induction false} RenamingMeans(doc: Json, r: Text)
    requires Normalize(doc).Some?
    ensures r in Renaming(doc) <==> Defined(doc, r) && Local(r)
    ensures forall i, v :: 0 <= i < |Objects(doc)| && r in Renaming(doc)
              && Lookup(Objects(doc)[i], "bom-ref") == Some(Str(r)) && Lookup(Objects(doc)[i], "purl") == Some(Str(v))
              ==> Clean(v) == Some(Renaming(doc)[r])
  {
    CleanKeepsRefs(doc);
    MappingKey(Objects(Cleaned(doc)), r);
    RefListMembers(Objects(doc), r);
    DefinedMeans(doc, r);
    forall i, v | 0 <= i < |Objects(doc)| && r in Renaming(doc)
      && Lookup(Objects(doc)[i], "bom-ref") == Some(Str(r)) && Lookup(Objects(doc)[i], "purl") == Some(Str(v))
      ensures Clean(v) == Some(Renaming(doc)[r])
    {
      RenamedTo(doc, i, r, v);
    }
  }

  lemma {:induction false} RenamedTo(doc: Json, i: nat, r: Text, v: Text)
    requires Normalize(doc).Some? && i < |Objects(doc)| && r in Renaming(doc) && Local(r)
    requires Lookup(Objects(doc)[i], "bom-ref") == Some(Str(r)) && Lookup(Objects(doc)[i], "purl") == Some(Str(v))
    ensures Clean(v) == Some(Renaming(doc)[r])
  {
    var node := Objects(doc)[i];
    ObjectsOfMap(doc, false, Cleaner());
    var clean := MapFields(node, Cleaner());
    LookupOfMap(node, "bom-ref", Cleaner());
    LookupOfMap(node, "purl", Cleaner());
    assert PurlOf(node).Some?;
    CleanMeans(v);
    assert PurlOf(clean) == Clean(v) && LocalRef(clean) == Some(r);
    MappingAt(Objects(Cleaned(doc)), i, r);
  }

  /** What normalization does to each string, in place: a package URL is cleaned, and then, like any
      other string, replaced when it is a renamed ref. */
  lemma {:induction false} OutputStrings(doc: Json)
    requires Normalize(doc).Some?
    ensures var before, after := Leaves(doc, false), Leaves(Normalize(doc).value, false);
      && |after| == |before|
      && forall i :: 0 <= i < |before| ==>
           && after[i].purl == before[i].purl
           && var cleaned := if before[i].purl && Clean(before[i].text).Some? then Clean(before[i].text).value
                             else before[i].text;
           after[i].text == if cleaned in Renaming(doc) then Renaming(doc)[cleaned] else cleaned
  {
    LeavesOfMap(doc, false, Cleaner());
    LeavesOfMap(Cleaned(doc), false, Renamer(Renaming(doc)));
  }

  /** Normalization refuses a package URL that is no string or does not start with pkg:. */
  lemma {:induction false} PurlsAreStrings(doc: Json, i: nat)
    requires Normalize(doc).Some? && i < |Objects(doc)| && Lookup(Objects(doc)[i], "purl").Some?
    ensures exists v :: Lookup(Objects(doc)[i], "purl") == Some(Str(v)) && PKG <= v
  {
    var v := Lookup(Objects(doc)[i], "purl").value.s;
    assert PurlOf(Objects(doc)[i]).Some?;
    assert Lookup(Objects(doc)[i], "purl") == Some(Str(v)) && PKG <= v;
  }

  /** A valid document whose package URLs have no local download URL is left exactly as it is. */
  lemma {:induction false} ValidStaysAsItIs(doc: Json)
    requires ValidSbom(doc)
    requires forall i :: 0 <= i < |Objects(doc)| && Lookup(Objects(doc)[i], "purl").Some? ==>
               Lookup(Objects(doc)[i], "purl").value.Str?
    requires forall l :: l in Leaves(doc, false) && l.purl ==>
               PKG <= l.text && forall q :: q in Qualifiers(l.text) ==> !(q.0 == DOWNLOAD_URL && Local(q.1))
    ensures Normalize(doc) == Some(doc)
  {
    forall l | l in Leaves(doc, false) ensures Cleaner()(l) == l.text {
      if l.purl {
        CleanLeavesRemote(l.text);
      }
    }
    MapNothing(doc, false, Cleaner());
    forall i | 0 <= i < |Objects(doc)| && Lookup(Objects(doc)[i], "purl").Some? ensures PurlOf(Objects(doc)[i]).Some? {
      FieldIsLeaf(doc, false, Objects(doc)[i], "purl");
      CleanLeavesRemote(Lookup(Objects(doc)[i], "purl").value.s);
    }
    forall i | 0 <= i < |Objects(doc)| ensures LocalRef(Objects(doc)[i]).None? {
      ValidHasNoLocalRefs(doc, i);
    }
    NoLocalRefsNoMapping(Objects(doc));
    MapNothing(doc, false, Renamer(map[]));
  }
}
