/**
 * The records exercised by the repository's tests, and what the model says
 * the builder produces for them.
 */
module Scenarios {
  import opened Fields
  import opened Walk
  import opened Query

  /** `ObjectField`: an empty json tag, a renaming json tag, a string slice. */
  const ObjectField: seq<FieldDesc> := [
    FieldDesc("Prop1", true, Some(""), None, Scalar),
    FieldDesc("Prop2", true, Some("specialName"), None, Scalar),
    FieldDesc("Prop3", true, None, None, Slice(Scalar))
  ]

  /** `ComplicatedObjectToFilter`; the unrelated `asdf` tag of `Exported` is not
      one of the two tags the resolver looks up, so it is not represented. */
  const Complicated: seq<FieldDesc> := [
    FieldDesc("Name", true, None, None, Scalar),
    FieldDesc("Measure", true, Some("measurement"), None, Scalar),
    FieldDesc("Exported", true, None, None, Scalar),
    FieldDesc("unexported", false, None, None, Scalar),
    FieldDesc("Field1", true, None, None, Scalar),
    FieldDesc("Field2", true, None, Some("omit"), Struct(ObjectField)),
    FieldDesc("Field3", true, Some("field_3"), Some("omit"), Struct(ObjectField)),
    FieldDesc("Field4", true, None, None, Struct(ObjectField)),
    FieldDesc("Field5", true, None, None, Slice(Struct(ObjectField)))
  ]

  /** `EmptyResponse`: a slice of structs hidden by `json:""` and an unexported field. */
  const EmptyResponse: seq<FieldDesc> := [
    FieldDesc("SomeFieldToo", true, Some(""), None,
      Slice(Struct([FieldDesc("SomeField", true, None, None, Slice(Scalar))]))),
    FieldDesc("unexported", false, None, None, Scalar)
  ]

  /** The enumeration order the test's expected string happens to list. */
  const TestOrder: seq<string> := ["Field5", "Name", "measurement", "Exported", "Field1", "Field4"]

  const ExpectedRepr: map<string, seq<string>> := map[
    "Name" := [], "measurement" := [], "Exported" := [], "Field1" := [],
    "Field4" := ["specialName", "Prop3"], "Field5" := ["specialName", "Prop3"]]

  lemma ObjectFieldNames()
    ensures Names(ObjectField) == ["specialName", "Prop3"]
  {
    var o := ObjectField;
    NamesSnoc([], o[0]);
    assert [] + [o[0]] == o[..1];
    NamesSnoc(o[..1], o[1]);
    assert o[..1] + [o[1]] == o[..2];
    NamesSnoc(o[..2], o[2]);
    assert o[..2] + [o[2]] == o;
  }

  /** The five scalar root fields: four keys, the unexported field left out. */
  lemma ComplicatedScalars()
    ensures Repr(Complicated[..5]) == map["Name" := [], "measurement" := [], "Exported" := [], "Field1" := []]
  {
    var c := Complicated;
    ReprSnoc([], c[0]);
    assert [] + [c[0]] == c[..1];
    ReprSnoc(c[..1], c[1]);
    assert c[..1] + [c[1]] == c[..2];
    ReprSnoc(c[..2], c[2]);
    assert c[..2] + [c[2]] == c[..3];
    ReprSnoc(c[..3], c[3]);
    assert c[..3] + [c[3]] == c[..4];
    ReprSnoc(c[..4], c[4]);
    assert c[..4] + [c[4]] == c[..5];
  }

  lemma ComplicatedRepr()
    ensures Repr(Complicated) == ExpectedRepr
  {
    var c := Complicated;
    ComplicatedScalars();
    ObjectFieldNames();
    ReprSnoc(c[..5], c[5]);
    assert c[..5] + [c[5]] == c[..6];
    ReprSnoc(c[..6], c[6]);
    assert c[..6] + [c[6]] == c[..7];
    ReprSnoc(c[..7], c[7]);
    assert c[..7] + [c[7]] == c[..8];
    ReprSnoc(c[..8], c[8]);
    assert c[..8] + [c[8]] == c;
  }

  lemma EmptyResponseRepr()
    ensures Repr(EmptyResponse) == map[]
  {
    var e := EmptyResponse;
    ReprSnoc([], e[0]);
    assert [] + [e[0]] == e[..1];
    ReprSnoc(e[..1], e[1]);
    assert e[..1] + [e[1]] == e;
  }

  /** The entries of the expected map, looked up one by one. (Exists only to keep
      the literal-string proofs below small.) */
  lemma ExpectedLookups()
    ensures "Field5" in ExpectedRepr && ExpectedRepr["Field5"] == ["specialName", "Prop3"]
    ensures "Field4" in ExpectedRepr && ExpectedRepr["Field4"] == ["specialName", "Prop3"]
    ensures "Name" in ExpectedRepr && ExpectedRepr["Name"] == []
    ensures "measurement" in ExpectedRepr && ExpectedRepr["measurement"] == []
    ensures "Exported" in ExpectedRepr && ExpectedRepr["Exported"] == []
    ensures "Field1" in ExpectedRepr && ExpectedRepr["Field1"] == []
  {
  }

  /** The nested tokens of `Field4` and `Field5`. */
  lemma NestedTokens(k: string, fd: string)
    ensures KeyTokens(k, ["specialName", "Prop3"], fd) == [k + fd + "specialName", k + fd + "Prop3"]
  {
    var ts := KeyTokens(k, ["specialName", "Prop3"], fd);
    assert |ts| == 2;
  }

  /** The tokens of the first three keys of the test's expected order. */
  lemma TestOrderTokensHead(fd: string)
    ensures forall k :: k in TestOrder[..3] ==> k in ExpectedRepr
    ensures Tokens(TestOrder[..3], ExpectedRepr, fd) ==
      ["Field5" + fd + "specialName", "Field5" + fd + "Prop3", "Name", "measurement"]
  {
    var m := ExpectedRepr;
    ExpectedLookups();
    NestedTokens("Field5", fd);
    TokensSnoc([], "Field5", m, fd);
    assert [] + ["Field5"] == ["Field5"];
    TokensSnoc(["Field5"], "Name", m, fd);
    assert ["Field5"] + ["Name"] == ["Field5", "Name"];
    TokensSnoc(["Field5", "Name"], "measurement", m, fd);
    assert ["Field5", "Name"] + ["measurement"] == TestOrder[..3];
  }

  /** The tokens of the test's expected order, for any field delimiter. */
  lemma TestOrderTokens(fd: string)
    ensures forall k :: k in TestOrder ==> k in ExpectedRepr
    ensures Tokens(TestOrder, ExpectedRepr, fd) == [
      "Field5" + fd + "specialName", "Field5" + fd + "Prop3", "Name", "measurement", "Exported", "Field1",
      "Field4" + fd + "specialName", "Field4" + fd + "Prop3"]
  {
    var m := ExpectedRepr;
    var o := TestOrder;
    ExpectedLookups();
    NestedTokens("Field4", fd);
    TestOrderTokensHead(fd);
    TokensSnoc(o[..3], "Exported", m, fd);
    assert o[..3] + ["Exported"] == o[..4];
    TokensSnoc(o[..4], "Field1", m, fd);
    assert o[..4] + ["Field1"] == o[..5];
    TokensSnoc(o[..5], "Field4", m, fd);
    assert o[..5] + ["Field4"] == o;
  }

  /** With default options and the order of the test's expected string, the
      text after `filter=` is that string: its eight tokens, comma-separated. */
  lemma ExpectedStringForTestOrder()
    ensures forall k :: k in TestOrder ==> k in ExpectedRepr
    ensures Join(Tokens(TestOrder, ExpectedRepr, DefaultFieldDelimiter), DefaultDelimiter)
      == "Field5*specialName" + "," + "Field5*Prop3" + "," + "Name" + "," + "measurement" + "," +
         "Exported" + "," + "Field1" + "," + "Field4*specialName" + "," + "Field4*Prop3"
  {
    TestOrderTokens(DefaultFieldDelimiter);
    QualifiedLiterals();
    JoinEight("Field5*specialName", "Field5*Prop3", "Name", "measurement", "Exported", "Field1",
      "Field4*specialName", "Field4*Prop3", DefaultDelimiter);
  }

  /** Joining eight tokens, written out. */
  lemma JoinEight(a: string, b: string, c: string, e: string, f: string, g: string, h: string, i: string, d: string)
    ensures Join([a, b, c, e, f, g, h, i], d) == a + d + b + d + c + d + e + d + f + d + g + d + h + d + i
  {
    JoinSnoc([a], b, d);
    assert [a] + [b] == [a, b];
    JoinSnoc([a, b], c, d);
    assert [a, b] + [c] == [a, b, c];
    JoinSnoc([a, b, c], e, d);
    assert [a, b, c] + [e] == [a, b, c, e];
    JoinSnoc([a, b, c, e], f, d);
    assert [a, b, c, e] + [f] == [a, b, c, e, f];
    JoinSnoc([a, b, c, e, f], g, d);
    assert [a, b, c, e, f] + [g] == [a, b, c, e, f, g];
    JoinSnoc([a, b, c, e, f, g], h, d);
    assert [a, b, c, e, f, g] + [h] == [a, b, c, e, f, g, h];
    JoinSnoc([a, b, c, e, f, g, h], i, d);
    assert [a, b, c, e, f, g, h] + [i] == [a, b, c, e, f, g, h, i];
  }

  /** Test with empty options: whatever order the map is ranged over, the
      output is `filter=` followed by the expected eight tokens separated by commas. */
  method DefaultOptionsScenario() returns (r: string, ghost order: seq<string>)
    ensures |order| == 6 && forall k :: k in order ==> k in ExpectedRepr
    ensures r == "filter=" + Join(Tokens(order, ExpectedRepr, "*"), ",")
    ensures multiset(Tokens(order, ExpectedRepr, "*")) == multiset{
      "Field5*specialName", "Field5*Prop3", "Name", "measurement",
      "Exported", "Field1", "Field4*specialName", "Field4*Prop3"}
  {
    var b := NewBuilder(Options("", "", ""));
    assert b.options == Options("filter", ",", "*");
    ComplicatedRepr();
    r, order := b.QueryStringFromStruct(Complicated);
    assert "Name" in Repr(Complicated);
    assert "filter" + "=" == "filter=";
    EnumerationTokens(order, "*");
    QualifiedLiterals();
  }

  /** Test with explicit options: the same tokens, with `$` inside them, `;`
      between them and `halleluiah=` in front. */
  method ExplicitOptionsScenario() returns (r: string, ghost order: seq<string>)
    ensures |order| == 6 && forall k :: k in order ==> k in ExpectedRepr
    ensures r == "halleluiah=" + Join(Tokens(order, ExpectedRepr, "$"), ";")
    ensures multiset(Tokens(order, ExpectedRepr, "$")) == multiset{
      "Field5$specialName", "Field5$Prop3", "Name", "measurement",
      "Exported", "Field1", "Field4$specialName", "Field4$Prop3"}
  {
    var b := NewBuilder(Options("halleluiah", ";", "$"));
    assert b.options == Options("halleluiah", ";", "$");
    ComplicatedRepr();
    r, order := b.QueryStringFromStruct(Complicated);
    assert "Name" in Repr(Complicated);
    assert "halleluiah" + "=" == "halleluiah=";
    EnumerationTokens(order, "$");
    QualifiedLiterals();
  }

  /** Test with a record that has nothing to select: the result is empty. */
  method EmptyResponseScenario() returns (r: string)
    ensures r == ""
  {
    var b := NewBuilder(Options("", "", ""));
    ghost var order;
    r, order := b.QueryStringFromStruct(EmptyResponse);
    EmptyResponseRepr();
  }

  /** Any enumeration of the expected map yields the same token multiset as
      the order of the test's expected string. */
  lemma EnumerationTokens(order: seq<string>, fd: string)
    requires IsEnumeration(order, ExpectedRepr)
    ensures |order| == 6 && forall k :: k in order ==> k in ExpectedRepr
    ensures multiset(Tokens(order, ExpectedRepr, fd)) == multiset{
      "Field5" + fd + "specialName", "Field5" + fd + "Prop3", "Name", "measurement",
      "Exported", "Field1", "Field4" + fd + "specialName", "Field4" + fd + "Prop3"}
  {
    TestOrderEnumerates();
    assert |multiset(order)| == |multiset(TestOrder)|;
    TestOrderTokens(fd);
    TokensPermutation(TestOrder, order, ExpectedRepr, fd);
    EightTokens("Field5" + fd + "specialName", "Field5" + fd + "Prop3", "Name", "measurement",
      "Exported", "Field1", "Field4" + fd + "specialName", "Field4" + fd + "Prop3");
  }

  /** A sequence literal and a multiset literal of the same eight tokens agree.
      (Exists only to keep the literal-string proofs small.) */
  lemma EightTokens(a: string, b: string, c: string, d: string, e: string, f: string, g: string, h: string)
    ensures multiset([a, b, c, d, e, f, g, h]) == multiset{a, b, c, d, e, f, g, h}
  {
  }

  /** The order of the test's expected string is one enumeration of the map. */
  lemma TestOrderEnumerates()
    ensures IsEnumeration(TestOrder, ExpectedRepr)
  {
    assert ExpectedRepr.Keys == {"Name", "measurement", "Exported", "Field1", "Field4", "Field5"};
  }

  /** The qualified tokens of the two tests, spelled out. (Exists only to keep
      the literal-string proofs small.) */
  lemma QualifiedLiterals()
    ensures "Field5" + "*" + "specialName" == "Field5*specialName"
    ensures "Field5" + "*" + "Prop3" == "Field5*Prop3"
    ensures "Field4" + "*" + "specialName" == "Field4*specialName"
    ensures "Field4" + "*" + "Prop3" == "Field4*Prop3"
    ensures "Field5" + "$" + "specialName" == "Field5$specialName"
    ensures "Field5" + "$" + "Prop3" == "Field5$Prop3"
    ensures "Field4" + "$" + "specialName" == "Field4$specialName"
    ensures "Field4" + "$" + "Prop3" == "Field4$Prop3"
  {
  }
}
