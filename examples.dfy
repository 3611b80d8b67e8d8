/**
  The examples of tago.go's documentation comments, worked through the model.
  Field names, struct names and the separator are those of the comments.
  The general lemmas take the directive texts as parameters that only need
  to be clean directives; the *Literal* lemmas and UsageExample then
  instantiate them with the comments' own texts (`preload=true`,
  `otherOption=value`, `otherOption=value2`).
*/
module Examples {
  import opened GoStrings
  import opened Model
  import opened Index
  import opened Types
  import opened TagParser
  import opened Builder

  /** A directive the parser keeps as written: non-empty, no `;`, already normal. */
  predicate CleanDirective(d: string)
  {
    d != "" && ';' !in d && Normalize(d) == d
  }

  /** `key=value` with no `=`, `;` or edge white space in the key and no `;` or edge white space in the value is clean. */
  lemma CleanPair(k: string, v: string)
    requires k != "" && '=' !in k && ';' !in k && NoEdgeSpace(k) && ';' !in v && NoEdgeSpace(v)
    ensures CleanDirective(k + "=" + v)
  {
    NormalizeOfClean(k, v);
  }

  /** Recording one non-empty normal form. */
  lemma CollectOne(a: string, f: FieldName)
    requires a != ""
    ensures Collect([a], f) == map[Instruction(a) := [f]]
  {
    assert [a][..0] == [];
    assert Collect([a], f) == Record(Collect([], f), a, f);
    var empty: IndexMap := map[];
    assert Lookup(empty, Instruction(a)) == [];
    assert [] + [f] == [f];
  }

  /** Recording two distinct non-empty normal forms. */
  lemma CollectTwo(a: string, b: string, f: FieldName)
    requires a != "" && b != "" && a != b
    ensures Collect([a, b], f) == map[Instruction(a) := [f], Instruction(b) := [f]]
  {
    assert [a, b][..1] == [a];
    CollectOne(a, f);
  }

  /** A field whose tag is one clean directive. */
  lemma FieldIndexOfOne(t: TaGo, f: Field, a: string)
    requires CleanDirective(a) && TagGet(f, t.name) == a
    ensures FieldIndex(t, f) == map[Instruction(a) := [FieldName(f.name)]]
  {
    SplitOfJoin([a], ';');
    assert NormalForms([a]) == [a];
    CollectOne(a, FieldName(f.name));
  }

  /** A field whose tag is two distinct clean directives joined by `;`. */
  lemma FieldIndexOfTwo(t: TaGo, f: Field, a: string, b: string)
    requires CleanDirective(a) && CleanDirective(b) && a != b && TagGet(f, t.name) == a + ";" + b
    ensures FieldIndex(t, f) == map[Instruction(a) := [FieldName(f.name)], Instruction(b) := [FieldName(f.name)]]
  {
    SplitOfJoin([a, b], ';');
    assert Join([a, b], ';') == a + ";" + b;
    assert NormalForms([a, b]) == [a, b];
    CollectTwo(a, b, FieldName(f.name));
  }

  /** A field without the tag yields nothing. */
  lemma FieldIndexOfUntagged(t: TaGo, f: Field)
    requires t.name !in f.tag
    ensures FieldIndex(t, f) == map[]
  {
    assert NormalForms([]) == [];
  }

  /** Merging with no prefix concatenates the lists. */
  lemma MergePlain(a: IndexMap, b: IndexMap, i: Instruction)
    ensures Lookup(Merge(a, b, ""), i) == Lookup(a, i) + Lookup(b, i)
  {
    PrefixedEmpty(Lookup(b, i));
  }

  lemma FlatOfThree(t: TaGo, f1: Field, f2: Field, f3: Field)
    ensures Flat(t, [f1, f2, f3]) == Merge(Merge(Merge(map[], FieldIndex(t, f1), ""), FieldIndex(t, f2), ""), FieldIndex(t, f3), "")
  {
    var fs := [f1, f2, f3];
    FlatSnoc(t, fs, 0);
    FlatSnoc(t, fs, 1);
    FlatSnoc(t, fs, 2);
    assert fs[..0] == [] && fs[..3] == fs;
  }

  /** A merge with no prefix whose keys and lists are known. */
  lemma MergeInto(a: IndexMap, b: IndexMap, expected: IndexMap)
    requires expected.Keys == a.Keys + b.Keys
    requires forall i :: Lookup(expected, i) == Lookup(a, i) + Lookup(b, i)
    ensures Merge(a, b, "") == expected
  {
    forall i ensures Lookup(Merge(a, b, ""), i) == Lookup(expected, i) {
      MergePlain(a, b, i);
    }
    IndexExt(Merge(a, b, ""), expected);
  }

  /** The two single-name lists of Field1 and Field3 combined. */
  lemma CombineExample(p: Instruction, o: Instruction, n1: FieldName, n3: FieldName)
    requires p != o
    ensures var e := map[p := [n1, n3], o := [n1]];
            var a := map[p := [n1], o := [n1]];
            var c := map[p := [n3]];
            e.Keys == a.Keys + c.Keys && forall i :: Lookup(e, i) == Lookup(a, i) + Lookup(c, i)
  {
  }

  /**
    MyModel of the Get and GetNested comments: Field1 carries two
    directives, Field2 no tag, Field3 (of type NestedModel) one directive.
  */
  function MyModel(t: TaGo, preload: string, otherOption: string): seq<Field>
  {
    [ Field("Field1", Basic("string"), map[t.name := preload + ";" + otherOption]),
      Field("Field2", Basic("int"), map[]),
      Field("Field3", Struct("NestedModel"), map[t.name := preload]) ]
  }

  /** The Get comment's result: preload=true → [Field1 Field3], otherOption=value → [Field1]. */
  lemma GetExample(t: TaGo, preload: string, otherOption: string)
    requires CleanDirective(preload) && CleanDirective(otherOption) && preload != otherOption
    ensures Flat(t, MyModel(t, preload, otherOption))
         == map[Instruction(preload) := [FieldName("Field1"), FieldName("Field3")],
                Instruction(otherOption) := [FieldName("Field1")]]
  {
    var fs := MyModel(t, preload, otherOption);
    var p, o := Instruction(preload), Instruction(otherOption);
    FieldIndexOfTwo(t, fs[0], preload, otherOption);
    FieldIndexOfUntagged(t, fs[1]);
    FieldIndexOfOne(t, fs[2], preload);
    FlatOfThree(t, fs[0], fs[1], fs[2]);
    assert fs == [fs[0], fs[1], fs[2]];
    var a := map[p := [FieldName("Field1")], o := [FieldName("Field1")]];
    MergeIntoEmpty(a);
    MergeEmpty(a, "");
    CombineExample(p, o, FieldName("Field1"), FieldName("Field3"));
    MergeInto(a, map[p := [FieldName("Field3")]], map[p := [FieldName("Field1"), FieldName("Field3")], o := [FieldName("Field1")]]);
  }

  /** MyModel and NestedModel of the GetNested comment; Subfield1 carries two directives. */
  function Models(t: TaGo, preload: string, otherOption: string, otherOption2: string): Env
  {
    map["MyModel" := MyModel(t, preload, otherOption),
        "NestedModel" := [Field("Subfield1", Basic("string"), map[t.name := preload + ";" + otherOption2])]]
  }

  const Ranks: map<string, nat> := map["MyModel" := 1, "NestedModel" := 0]

  /** Field3 leads from MyModel into NestedModel, which leads nowhere. */
  lemma ModelsRanked(t: TaGo, preload: string, otherOption: string, otherOption2: string)
    ensures Ranked(Models(t, preload, otherOption, otherOption2), Ranks)
  {
    var env := Models(t, preload, otherOption, otherOption2);
    assert Recurses("MyModel", env["MyModel"][2]);
    assert !Recurses("MyModel", env["MyModel"][0]) && !Recurses("MyModel", env["MyModel"][1]);
    assert !Recurses("NestedModel", env["NestedModel"][0]);
  }

  /** Prefixing the two single-name lists of one field. */
  lemma MergePrefixPair(p: Instruction, o: Instruction, n: FieldName, prefix: string)
    requires p != o
    ensures Merge(map[], map[p := [n], o := [n]], prefix) == map[p := [AddPrefix(n, prefix)], o := [AddPrefix(n, prefix)]]
  {
    var m := Merge(map[], map[p := [n], o := [n]], prefix);
    forall i ensures Lookup(m, i) == Lookup(map[p := [AddPrefix(n, prefix)], o := [AddPrefix(n, prefix)]], i) {
      assert Prefixed([n], prefix) == [AddPrefix(n, prefix)];
    }
    IndexExt(m, map[p := [AddPrefix(n, prefix)], o := [AddPrefix(n, prefix)]]);
  }

  /** The index getNested builds for NestedModel under Field3: Subfield1's directives, named Field3.Subfield1. */
  lemma NestedModelIndex(t: TaGo, preload: string, otherOption: string, otherOption2: string)
    requires CleanDirective(preload) && CleanDirective(otherOption2) && preload != otherOption2
    ensures Ranked(Models(t, preload, otherOption, otherOption2), Ranks)
    ensures Nested(t, Models(t, preload, otherOption, otherOption2), Ranks, "NestedModel", "Field3.", ".")
         == map[Instruction(preload) := [FieldName("Field3.Subfield1")], Instruction(otherOption2) := [FieldName("Field3.Subfield1")]]
  {
    var env := Models(t, preload, otherOption, otherOption2);
    ModelsRanked(t, preload, otherOption, otherOption2);
    var sub := env["NestedModel"][0];
    FieldIndexOfTwo(t, sub, preload, otherOption2);
    assert !Recurses("NestedModel", sub);
    NestedUpToPlainStep(t, env, Ranks, "NestedModel", "Field3.", ".", 1);
    MergePrefixPair(Instruction(preload), Instruction(otherOption2), FieldName("Subfield1"), "Field3.");
    NestedName();
  }

  /** The name getNested gives Subfield1 under Field3 with the separator ".". */
  lemma NestedName()
    ensures "" + "Field3" + "." == "Field3."
    ensures AddPrefix(FieldName("Subfield1"), "Field3.") == FieldName("Field3.Subfield1")
  {
  }

  /** MyModel's first two fields do not lead into another struct, so they give Field1's index. */
  lemma MyModelFirstTwo(t: TaGo, preload: string, otherOption: string, otherOption2: string)
    requires CleanDirective(preload) && CleanDirective(otherOption) && preload != otherOption
    ensures Ranked(Models(t, preload, otherOption, otherOption2), Ranks)
    ensures NestedUpTo(t, Models(t, preload, otherOption, otherOption2), Ranks, "MyModel", "", ".", 2)
         == map[Instruction(preload) := [FieldName("Field1")], Instruction(otherOption) := [FieldName("Field1")]]
  {
    var env := Models(t, preload, otherOption, otherOption2);
    ModelsRanked(t, preload, otherOption, otherOption2);
    var fs := env["MyModel"];
    var a := map[Instruction(preload) := [FieldName("Field1")], Instruction(otherOption) := [FieldName("Field1")]];
    FieldIndexOfTwo(t, fs[0], preload, otherOption);
    FieldIndexOfUntagged(t, fs[1]);
    assert !Recurses("MyModel", fs[0]) && !Recurses("MyModel", fs[1]);
    var n0 := NestedUpTo(t, env, Ranks, "MyModel", "", ".", 0);
    assert n0 == map[];
    NestedUpToPlainStep(t, env, Ranks, "MyModel", "", ".", 1);
    MergeIntoEmpty(a);
    NestedUpToPlainStep(t, env, Ranks, "MyModel", "", ".", 2);
    MergeEmpty(a, "");
  }

  /** Field3's own list merged with the lists found inside NestedModel. */
  lemma CombineNestedExample(p: Instruction, o: Instruction, o2: Instruction, n1: FieldName, n3: FieldName, n31: FieldName)
    requires p != o && p != o2 && o != o2
    ensures var e := map[p := [n1, n3, n31], o := [n1], o2 := [n31]];
            var g := map[p := [n1, n3], o := [n1]];
            var c := map[p := [n31], o2 := [n31]];
            e.Keys == g.Keys + c.Keys && forall i :: Lookup(e, i) == Lookup(g, i) + Lookup(c, i)
  {
  }

  /** Field3 adds its own name under preload and, behind it, the lists found inside NestedModel. */
  lemma MyModelThirdField(t: TaGo, preload: string, otherOption: string, otherOption2: string)
    requires CleanDirective(preload) && CleanDirective(otherOption) && CleanDirective(otherOption2)
    requires preload != otherOption && preload != otherOption2 && otherOption != otherOption2
    ensures Ranked(Models(t, preload, otherOption, otherOption2), Ranks)
    ensures NestedStep(t, Models(t, preload, otherOption, otherOption2), Ranks, "MyModel", "", ".", 2,
                       map[Instruction(preload) := [FieldName("Field1")], Instruction(otherOption) := [FieldName("Field1")]])
         == map[Instruction(preload) := [FieldName("Field1"), FieldName("Field3"), FieldName("Field3.Subfield1")],
                Instruction(otherOption) := [FieldName("Field1")],
                Instruction(otherOption2) := [FieldName("Field3.Subfield1")]]
  {
    var env := Models(t, preload, otherOption, otherOption2);
    var p, o, o2 := Instruction(preload), Instruction(otherOption), Instruction(otherOption2);
    var n1, n3, n31 := FieldName("Field1"), FieldName("Field3"), FieldName("Field3.Subfield1");
    NestedModelIndex(t, preload, otherOption, otherOption2);
    var fs := env["MyModel"];
    FieldIndexOfOne(t, fs[2], preload);
    var a := map[p := [n1], o := [n1]];
    var g := map[p := [n1, n3], o := [n1]];
    var sub := map[p := [n31], o2 := [n31]];
    NestedName();
    assert Recurses("MyModel", fs[2]);
    assert Child(t, env, Ranks, "MyModel", "", ".", 2) == sub;
    CombineExample(p, o, n1, n3);
    MergeInto(a, map[p := [n3]], g);
    CombineNestedExample(p, o, o2, n1, n3, n31);
    MergeInto(g, sub, map[p := [n1, n3, n31], o := [n1], o2 := [n31]]);
  }

  /**
    The GetNested comment's result with separator ".": preload=true ->
    [Field1 Field3 Field3.Subfield1], otherOption=value -> [Field1],
    otherOption=value2 -> [Field3.Subfield1]. (The comment writes
    Field3.SubField1 in the first list; the field is named Subfield1.)
  */
  lemma GetNestedExample(t: TaGo, preload: string, otherOption: string, otherOption2: string)
    requires CleanDirective(preload) && CleanDirective(otherOption) && CleanDirective(otherOption2)
    requires preload != otherOption && preload != otherOption2 && otherOption != otherOption2
    ensures Ranked(Models(t, preload, otherOption, otherOption2), Ranks)
    ensures Nested(t, Models(t, preload, otherOption, otherOption2), Ranks, "MyModel", "", ".")
         == map[Instruction(preload) := [FieldName("Field1"), FieldName("Field3"), FieldName("Field3.Subfield1")],
                Instruction(otherOption) := [FieldName("Field1")],
                Instruction(otherOption2) := [FieldName("Field3.Subfield1")]]
  {
    var env := Models(t, preload, otherOption, otherOption2);
    MyModelFirstTwo(t, preload, otherOption, otherOption2);
    MyModelThirdField(t, preload, otherOption, otherOption2);
    NestedUpToUnfold(t, env, Ranks, "MyModel", "", ".", 3);
    assert |env["MyModel"]| == 3;
  }

  /** A linked-list node whose Next field points back to its own struct type. */
  function Nodes(t: TaGo, index: string, preload: string): Env
  {
    map["Node" := [Field("Name", Basic("string"), map[t.name := index]),
                   Field("Next", Ptr(Struct("Node")), map[t.name := preload])]]
  }

  /**
    The self-reference guard: getNested does not descend through Next, so
    GetNested on Node returns what Get does, under any separator.
  */
  lemma SelfReferenceExample(t: TaGo, index: string, preload: string, sep: string)
    ensures Ranked(Nodes(t, index, preload), map["Node" := 0])
    ensures Nested(t, Nodes(t, index, preload), map["Node" := 0], "Node", "", sep) == Flat(t, Nodes(t, index, preload)["Node"])
  {
    var env := Nodes(t, index, preload);
    assert !Recurses("Node", env["Node"][0]) && !Recurses("Node", env["Node"][1]);
    GetNestedIsGetWithoutDescent(t, env, map["Node" := 0], "Node", sep);
  }

  /** `preload=true` is clean. */
  lemma CleanPreload()
    ensures CleanDirective("preload=true")
  {
    assert "preload=true" == "preload" + "=" + "true";
    CleanPair("preload", "true");
  }

  /** `otherOption=value` is clean. */
  lemma CleanOtherOption()
    ensures CleanDirective("otherOption=value")
  {
    assert "otherOption=value" == "otherOption" + "=" + "value";
    CleanPair("otherOption", "value");
  }

  /** `otherOption=value2` is clean. */
  lemma CleanOtherOption2()
    ensures CleanDirective("otherOption=value2")
  {
    assert "otherOption=value2" == "otherOption" + "=" + "value2";
    CleanPair("otherOption", "value2");
  }

  /** The Get comment's example with its own tag texts. */
  lemma GetLiteralExample(t: TaGo)
    ensures Flat(t, MyModel(t, "preload=true", "otherOption=value"))
         == map[Instruction("preload=true") := [FieldName("Field1"), FieldName("Field3")],
                Instruction("otherOption=value") := [FieldName("Field1")]]
  {
    CleanPreload();
    CleanOtherOption();
    GetExample(t, "preload=true", "otherOption=value");
  }

  /** A struct whose one field Field1 carries two distinct clean directives `a;b`. */
  lemma OneFieldExample(t: TaGo, a: string, b: string)
    requires CleanDirective(a) && CleanDirective(b) && a != b
    ensures Flat(t, [Field("Field1", Basic("string"), map[t.name := a + ";" + b])])
         == map[Instruction(a) := [FieldName("Field1")], Instruction(b) := [FieldName("Field1")]]
  {
    var f := Field("Field1", Basic("string"), map[t.name := a + ";" + b]);
    FieldIndexOfTwo(t, f, a, b);
    FlatSnoc(t, [f], 0);
    assert [f][..1] == [f] && [f][..0] == [];
    MergeIntoEmpty(FieldIndex(t, f));
  }

  /**
    The package comment's usage example: Field1 tagged
    `preload=true;otherOption=value` gives Field1 under each directive.
    (The comment calls the method GetTags; the method is Get.)
  */
  lemma UsageExample(t: TaGo)
    ensures Flat(t, [Field("Field1", Basic("string"), map[t.name := "preload=true;otherOption=value"])])
         == map[Instruction("preload=true") := [FieldName("Field1")],
                Instruction("otherOption=value") := [FieldName("Field1")]]
  {
    CleanPreload();
    CleanOtherOption();
    OneFieldExample(t, "preload=true", "otherOption=value");
    UsageTag();
  }

  /** The usage example's tag is its two directives joined by `;`. */
  lemma UsageTag()
    ensures "preload=true" + ";" + "otherOption=value" == "preload=true;otherOption=value"
  {
  }

  /** The GetNested comment's example with its own tag texts and the separator ".". */
  lemma GetNestedLiteralExample(t: TaGo)
    ensures Ranked(Models(t, "preload=true", "otherOption=value", "otherOption=value2"), Ranks)
    ensures Nested(t, Models(t, "preload=true", "otherOption=value", "otherOption=value2"), Ranks, "MyModel", "", ".")
         == map[Instruction("preload=true") := [FieldName("Field1"), FieldName("Field3"), FieldName("Field3.Subfield1")],
                Instruction("otherOption=value") := [FieldName("Field1")],
                Instruction("otherOption=value2") := [FieldName("Field3.Subfield1")]]
  {
    CleanPreload();
    CleanOtherOption();
    CleanOtherOption2();
    GetNestedExample(t, "preload=true", "otherOption=value", "otherOption=value2");
  }
}
