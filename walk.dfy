/**
 * The structure walker: from a record's fields to the intermediate map from
 * root field names to the names of their nested fields (one level deep).
 */
module Walk {
  import opened Fields

  /** The names `collectFields` produces for a struct with fields `fs`: the
      resolved names of the included fields, in declaration order. */
  function Names(fs: seq<FieldDesc>): (r: seq<string>)
    ensures |r| <= |fs|
    ensures forall i :: 0 <= i < |r| ==> r[i] != ""
  {
    if fs == [] then []
    else
      var last := fs[|fs| - 1];
      Names(fs[..|fs| - 1]) + (if Included(last) then [FieldName(last)] else [])
  }

  /** The nested names recorded for a root field of the given kind: those of the
      struct itself, those of the element struct of a slice, and none otherwise. */
  function NestedNames(k: Kind): (r: seq<string>)
    ensures forall i :: 0 <= i < |r| ==> r[i] != ""
    ensures r != [] ==> k.Struct? || (k.Slice? && k.elem.Struct?)
  {
    match k
    case Struct(fs) => Names(fs)
    case Slice(Struct(fs)) => Names(fs)
    case _ => []
  }

  /** The map `structRepr` builds, field after field; a later field with the
      same resolved name replaces an earlier one. */
  function Repr(fs: seq<FieldDesc>): (m: map<string, seq<string>>)
    ensures "" !in m
  {
    if fs == [] then map[]
    else
      var last := fs[|fs| - 1];
      var m := Repr(fs[..|fs| - 1]);
      if Included(last) then m[FieldName(last) := NestedNames(last.kind)] else m
  }

  /** One more declared field: the map either gains or overwrites that
      field's entry, or stays as it was. */
  lemma ReprSnoc(fs: seq<FieldDesc>, f: FieldDesc)
    ensures Repr(fs + [f]) == if Included(f) then Repr(fs)[FieldName(f) := NestedNames(f.kind)] else Repr(fs)
  {
    assert (fs + [f])[..|fs|] == fs;
  }

  /** One more nested field: the list either gains that field's name or stays as it was. */
  lemma NamesSnoc(fs: seq<FieldDesc>, f: FieldDesc)
    ensures Names(fs + [f]) == Names(fs) + if Included(f) then [FieldName(f)] else []
  {
    assert (fs + [f])[..|fs|] == fs;
  }

  /** Lists the names of the exported, non-skipped fields of one struct type. */
  method CollectFields(fields: seq<FieldDesc>) returns (res: seq<string>)
    ensures res == Names(fields)
  {
    res := [];
    for i := 0 to |fields|
      invariant res == Names(fields[..i])
    {
      assert fields[..i + 1][..i] == fields[..i];
      var f := fields[i];
      if !f.exported {
        continue;
      }
      var fieldName := FieldName(f);
      if fieldName == "" {
        continue;
      }
      res := res + [fieldName];
    }
    assert fields[..|fields|] == fields;
  }

  /** Builds the map from root field names to nested field names. */
  method StructRepr(record: seq<FieldDesc>) returns (repr: map<string, seq<string>>)
    ensures repr == Repr(record)
  {
    repr := map[];
    for i := 0 to |record|
      invariant repr == Repr(record[..i])
    {
      assert record[..i + 1][..i] == record[..i];
      var field := record[i];
      if !field.exported {
        continue;
      }
      var objName := FieldName(field);
      if objName == "" {
        continue;
      }
      repr := repr[objName := []];
      match field.kind {
        case Struct(fs) =>
          var nested := CollectFields(fs);
          repr := repr[objName := nested];
        case Slice(elem) =>
          if elem.Struct? {
            var nested := CollectFields(elem.fields);
            repr := repr[objName := nested];
          }
        case Scalar =>
      }
    }
    assert record[..|record|] == record;
  }

  /** Collecting names distributes over concatenation of field lists: the
      output keeps declaration order. */
  lemma {:induction false} NamesAppend(a: seq<FieldDesc>, b: seq<FieldDesc>)
    ensures Names(a + b) == Names(a) + Names(b)
    decreases |b|
  {
    if b == [] {
      assert a + b == a;
    } else {
      var b' := b[..|b| - 1];
      assert (a + b)[..|a + b| - 1] == a + b';
      NamesAppend(a, b');
    }
  }

  /** A name is collected exactly when some included field resolves to it. */
  lemma {:induction false} NamesMembers(fs: seq<FieldDesc>, x: string)
    ensures x in Names(fs) <==> exists i :: 0 <= i < |fs| && Included(fs[i]) && FieldName(fs[i]) == x
  {
    if fs != [] {
      var init := fs[..|fs| - 1];
      NamesMembers(init, x);
      if x in Names(init) {
        var i :| 0 <= i < |init| && Included(init[i]) && FieldName(init[i]) == x;
        assert fs[i] == init[i];
      }
      if exists i :: 0 <= i < |fs| && Included(fs[i]) && FieldName(fs[i]) == x {
        var i :| 0 <= i < |fs| && Included(fs[i]) && FieldName(fs[i]) == x;
        if i < |fs| - 1 {
          assert init[i] == fs[i];
        }
      }
    }
  }

  /** The keys of the representation are exactly the resolved names of the
      included root fields. */
  lemma {:induction false} ReprKeys(fs: seq<FieldDesc>, k: string)
    ensures k in Repr(fs) <==> exists i :: 0 <= i < |fs| && Included(fs[i]) && FieldName(fs[i]) == k
  {
    if fs != [] {
      var init := fs[..|fs| - 1];
      ReprKeys(init, k);
      if k in Repr(init) {
        var i :| 0 <= i < |init| && Included(init[i]) && FieldName(init[i]) == k;
        assert fs[i] == init[i];
      }
      if exists i :: 0 <= i < |fs| && Included(fs[i]) && FieldName(fs[i]) == k {
        var i :| 0 <= i < |fs| && Included(fs[i]) && FieldName(fs[i]) == k;
        if i < |fs| - 1 {
          assert init[i] == fs[i];
        }
      }
    }
  }

  /** The value of a key is the nested names of the last included field that
      resolves to it. */
  lemma {:induction false} ReprValue(fs: seq<FieldDesc>, i: nat)
    requires i < |fs| && Included(fs[i])
    requires forall j :: i < j < |fs| ==> !(Included(fs[j]) && FieldName(fs[j]) == FieldName(fs[i]))
    ensures FieldName(fs[i]) in Repr(fs)
    ensures Repr(fs)[FieldName(fs[i])] == NestedNames(fs[i].kind)
  {
    var init := fs[..|fs| - 1];
    if i < |fs| - 1 {
      assert init[i] == fs[i];
      forall j | i < j < |init|
        ensures !(Included(init[j]) && FieldName(init[j]) == FieldName(init[i]))
      {
        assert init[j] == fs[j];
      }
      ReprValue(init, i);
    }
  }

  /** The representation is empty exactly when no root field is included. */
  lemma ReprEmpty(fs: seq<FieldDesc>)
    ensures Repr(fs) == map[] <==> forall i :: 0 <= i < |fs| ==> !Included(fs[i])
  {
    if Repr(fs) == map[] {
      forall i | 0 <= i < |fs|
        ensures !Included(fs[i])
      {
        ReprKeys(fs, FieldName(fs[i]));
      }
    } else {
      var k :| k in Repr(fs);
      ReprKeys(fs, k);
    }
  }

  /** A nested field with its own kind erased to `Scalar`. */
  function Flatten(f: FieldDesc): FieldDesc
  {
    f.(kind := Scalar)
  }

  /** The record as seen one level below the root: anything deeper is cut off. */
  function Shallow(fs: seq<FieldDesc>): (r: seq<FieldDesc>)
    ensures |r| == |fs|
  {
    seq(|fs|, i requires 0 <= i < |fs| => fs[i].(kind := ShallowKind(fs[i].kind)))
  }

  function ShallowKind(k: Kind): Kind
  {
    match k
    case Struct(fs) => Struct(seq(|fs|, i requires 0 <= i < |fs| => Flatten(fs[i])))
    case Slice(Struct(fs)) => Slice(Struct(seq(|fs|, i requires 0 <= i < |fs| => Flatten(fs[i]))))
    case _ => k
  }

  /** Nested names never depend on the kinds of the nested fields. */
  lemma {:induction false} NamesIgnoreKinds(fs: seq<FieldDesc>)
    ensures Names(seq(|fs|, i requires 0 <= i < |fs| => Flatten(fs[i]))) == Names(fs)
  {
    var flat := seq(|fs|, i requires 0 <= i < |fs| => Flatten(fs[i]));
    if fs != [] {
      var init := fs[..|fs| - 1];
      assert flat[..|flat| - 1] == seq(|init|, i requires 0 <= i < |init| => Flatten(init[i]));
      NamesIgnoreKinds(init);
    }
  }

  /** The walk goes exactly one level deep: erasing everything below the
      nested fields leaves the representation unchanged. */
  lemma {:induction false} OneLevelCap(fs: seq<FieldDesc>)
    ensures Repr(Shallow(fs)) == Repr(fs)
  {
    if fs != [] {
      var init := fs[..|fs| - 1];
      var last := fs[|fs| - 1];
      assert Shallow(fs)[..|fs| - 1] == Shallow(init);
      OneLevelCap(init);
      match last.kind {
        case Struct(nfs) => NamesIgnoreKinds(nfs);
        case Slice(elem) =>
          if elem.Struct? {
            NamesIgnoreKinds(elem.fields);
          }
        case Scalar =>
      }
    }
  }
}
