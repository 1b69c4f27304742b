/**
 * The query assembler: builder options and the conversion of a record into the
 * `ParamKey=token<Delimiter>token...` select parameter.
 */
module Query {
  import opened Fields
  import opened Walk

  const DefaultParamKey := "filter"
  const DefaultDelimiter := ","
  const DefaultFieldDelimiter := "*"

  datatype Options = Options(paramKey: string, delimiter: string, fieldDelimiter: string)

  /** Creates a builder; every empty option is replaced by its default and every
      non-empty option is kept as given, even when it equals the default. */
  method NewBuilder(o: Options) returns (b: Builder)
    ensures o.paramKey == "" ==> b.options.paramKey == DefaultParamKey
    ensures o.paramKey != "" ==> b.options.paramKey == o.paramKey
    ensures o.delimiter == "" ==> b.options.delimiter == DefaultDelimiter
    ensures o.delimiter != "" ==> b.options.delimiter == o.delimiter
    ensures o.fieldDelimiter == "" ==> b.options.fieldDelimiter == DefaultFieldDelimiter
    ensures o.fieldDelimiter != "" ==> b.options.fieldDelimiter == o.fieldDelimiter
    ensures b.options.paramKey != "" && b.options.delimiter != "" && b.options.fieldDelimiter != ""
  {
    var opts := o;
    if opts.paramKey == "" {
      opts := opts.(paramKey := DefaultParamKey);
    }
    if opts.delimiter == "" {
      opts := opts.(delimiter := DefaultDelimiter);
    }
    if opts.fieldDelimiter == "" {
      opts := opts.(fieldDelimiter := DefaultFieldDelimiter);
    }
    b := Builder(opts);
  }

  /** The tokens `k<fd>f` for the nested names `v` of key `k`, in order. */
  function Qualified(k: string, v: seq<string>, fd: string): (ts: seq<string>)
    ensures |ts| == |v|
    ensures forall i :: 0 <= i < |v| ==> ts[i] == k + fd + v[i]
  {
    if v == [] then [] else Qualified(k, v[..|v| - 1], fd) + [k + fd + v[|v| - 1]]
  }

  /** What one key contributes: the key alone when it has no nested names,
      otherwise one qualified token per nested name. */
  function KeyTokens(k: string, v: seq<string>, fd: string): (ts: seq<string>)
    ensures v == [] ==> ts == [k]
    ensures v != [] ==> |ts| == |v| && forall i {:trigger ts[i]} :: 0 <= i < |v| ==> ts[i] == k + fd + v[i]
  {
    if v == [] then [k] else Qualified(k, v, fd)
  }

  /** The tokens of the keys in the given enumeration order. */
  function Tokens(keys: seq<string>, repr: map<string, seq<string>>, fd: string): seq<string>
    requires forall k :: k in keys ==> k in repr
  {
    if keys == [] then []
    else
      var k := keys[|keys| - 1];
      Tokens(keys[..|keys| - 1], repr, fd) + KeyTokens(k, repr[k], fd)
  }

  /** Tokens separated by exactly one delimiter, none leading and none trailing. */
  function Join(ts: seq<string>, d: string): string
  {
    if ts == [] then ""
    else if |ts| == 1 then ts[0]
    else Join(ts[..|ts| - 1], d) + d + ts[|ts| - 1]
  }

  /** Tokens each followed by one delimiter: the text written before the last key. */
  function Terminated(ts: seq<string>, d: string): string
  {
    if ts == [] then "" else Join(ts, d) + d
  }

  /** `order` lists every key of `m` exactly once, in some order: one of the
      orders in which a Go map may be ranged over. */
  predicate IsEnumeration(order: seq<string>, m: map<string, seq<string>>)
  {
    && (forall k :: k in order ==> k in m)
    && multiset(order) == multiset(m.Keys)
  }

  datatype Builder = Builder(options: Options)
  {
    /** Turns a record into the select parameter. The intermediate map is
        ranged over in an unspecified order, returned as `order`; the result is
        empty exactly when the record has no included root field. */
    method QueryStringFromStruct(record: seq<FieldDesc>) returns (r: string, ghost order: seq<string>)
      ensures IsEnumeration(order, Repr(record))
      ensures Repr(record) == map[] ==> r == ""
      ensures Repr(record) != map[] ==>
        r == options.paramKey + "=" + Join(Tokens(order, Repr(record), options.fieldDelimiter), options.delimiter)
      ensures r == "" <==> forall i :: 0 <= i < |record| ==> !Included(record[i])
      ensures r != "" ==> |r| > |options.paramKey| + 1
    {
      var repr := StructRepr(record);
      r, order := Assemble(repr);
      if repr != map[] {
        JoinTokensNonEmpty(order, repr, options.fieldDelimiter, options.delimiter);
      }
      ReprEmpty(record);
    }

    /** Writes `ParamKey=` and then every key of `repr`, in whatever order the
        map is ranged over, collapsing to `""` when nothing followed `=`. */
    method Assemble(repr: map<string, seq<string>>) returns (r: string, ghost order: seq<string>)
      ensures IsEnumeration(order, repr)
      ensures Join(Tokens(order, repr, options.fieldDelimiter), options.delimiter) == "" ==> r == ""
      ensures Join(Tokens(order, repr, options.fieldDelimiter), options.delimiter) != "" ==>
        r == options.paramKey + "=" + Join(Tokens(order, repr, options.fieldDelimiter), options.delimiter)
    {
      var fd, d := options.fieldDelimiter, options.delimiter;
      var res := options.paramKey + "=";
      ghost var prefix := res;
      ghost var body := "";
      ghost var written: seq<string> := [];
      var cnt := 0;
      var remaining := repr.Keys;
      order := [];
      while remaining != {}
        invariant remaining <= repr.Keys
        invariant multiset(order) + multiset(remaining) == multiset(repr.Keys)
        invariant cnt == |order| && cnt + |remaining| == |repr|
        invariant forall k :: k in order ==> k in repr
        invariant written == Tokens(order, repr, fd)
        invariant res == prefix + body
        invariant body == if cnt == |repr| then Join(written, d) else Terminated(written, d)
        decreases remaining
      {
        var k :| k in remaining;
        var v := repr[k];
        MoveKey(order, remaining, k);
        remaining := remaining - {k};
        cnt := cnt + 1;
        ghost var isLast := cnt == |repr|;
        ghost var before := written;
        if |v| == 0 {
          JoinSnoc(before, k, d);
          Extend(prefix, body, k);
          res, body := res + k, body + k;
          if cnt < |repr| {
            Extend(prefix, body, d);
            res, body := res + d, body + d;
          }
        } else {
          assert before + Qualified(k, v[..0], fd) == before;
          for i := 0 to |v|
            invariant res == prefix + body
            invariant isLast && i == |v| ==> body == Join(before + Qualified(k, v[..i], fd), d)
            invariant !(isLast && i == |v|) ==> body == Terminated(before + Qualified(k, v[..i], fd), d)
          {
            QualifiedSnoc(before, k, v, i, fd, d);
            Extend(prefix, body, k);
            res, body := res + k, body + k;
            Extend(prefix, body, fd);
            res, body := res + fd, body + fd;
            Extend(prefix, body, v[i]);
            res, body := res + v[i], body + v[i];
            if cnt < |repr| {
              Extend(prefix, body, d);
              res, body := res + d, body + d;
            }
            if cnt == |repr| && i < |v| - 1 {
              Extend(prefix, body, d);
              res, body := res + d, body + d;
            }
          }
          assert v[..|v|] == v;
        }
        assert (order + [k])[..|order|] == order;
        written := written + KeyTokens(k, v, fd);
        order := order + [k];
      }
      if |res| == |options.paramKey| + 1 {
        r := "";
      } else {
        r := res;
      }
    }
  }

  /** Writing more text after the prefix extends the text after the prefix.
      (Associativity of `+`, stated once to keep the assembly proof small.) */
  lemma Extend(prefix: string, body: string, more: string)
    ensures prefix + body + more == prefix + (body + more)
  {
  }

  /** Moving one key from the unvisited set to the visited list keeps the
      multiset of all keys. */
  lemma MoveKey(order: seq<string>, remaining: set<string>, k: string)
    requires k in remaining
    ensures multiset(order + [k]) + multiset(remaining - {k}) == multiset(order) + multiset(remaining)
  {
    assert remaining == (remaining - {k}) + {k};
    assert multiset(remaining) == multiset(remaining - {k}) + multiset{k};
  }

  /** One more qualified token, written with or without its trailing delimiter. */
  lemma QualifiedSnoc(before: seq<string>, k: string, v: seq<string>, i: nat, fd: string, d: string)
    requires i < |v|
    ensures Join(before + Qualified(k, v[..i + 1], fd), d) == Terminated(before + Qualified(k, v[..i], fd), d) + k + fd + v[i]
    ensures Terminated(before + Qualified(k, v[..i + 1], fd), d) == Terminated(before + Qualified(k, v[..i], fd), d) + k + fd + v[i] + d
  {
    assert v[..i + 1][..i] == v[..i];
    assert before + Qualified(k, v[..i + 1], fd) == (before + Qualified(k, v[..i], fd)) + [k + fd + v[i]];
    JoinSnoc(before + Qualified(k, v[..i], fd), k + fd + v[i], d);
  }

  /** Appending one token: a delimiter goes in front of it unless it is the first. */
  lemma JoinSnoc(ts: seq<string>, t: string, d: string)
    ensures Join(ts + [t], d) == Terminated(ts, d) + t
    ensures Terminated(ts + [t], d) == Terminated(ts, d) + t + d
  {
    assert (ts + [t])[..|ts|] == ts;
  }

  /** Joining two non-empty lists puts exactly one delimiter between them. */
  lemma {:induction false} JoinAppend(a: seq<string>, b: seq<string>, d: string)
    requires a != [] && b != []
    ensures Join(a + b, d) == Join(a, d) + d + Join(b, d)
    decreases |b|
  {
    var b' := b[..|b| - 1];
    var t := b[|b| - 1];
    assert a + b == (a + b') + [t];
    if b' == [] {
      JoinSnoc(a, t, d);
    } else {
      JoinSnoc(a + b', t, d);
      JoinAppend(a, b', d);
      JoinSnoc(b', t, d);
      calc {
        Join(a + b, d);
        Terminated(a + b', d) + t;
        Join(a, d) + d + Join(b', d) + d + t;
        { Extend(Join(a, d) + d, Join(b', d) + d, t); Extend(Join(a, d) + d, Join(b', d), d); }
        Join(a, d) + d + (Join(b', d) + d + t);
      }
    }
  }

  /** A non-empty list of non-empty tokens joins to a non-empty string. */
  lemma JoinNonEmpty(ts: seq<string>, d: string)
    requires ts != [] && ts[|ts| - 1] != ""
    ensures |Join(ts, d)| > 0
  {
    JoinSnoc(ts[..|ts| - 1], ts[|ts| - 1], d);
    assert ts[..|ts| - 1] + [ts[|ts| - 1]] == ts;
  }

  /** The tokens of a concatenation of key lists are the concatenation of their tokens. */
  lemma {:induction false} TokensAppend(a: seq<string>, b: seq<string>, repr: map<string, seq<string>>, fd: string)
    requires forall k :: k in a ==> k in repr
    requires forall k :: k in b ==> k in repr
    ensures Tokens(a + b, repr, fd) == Tokens(a, repr, fd) + Tokens(b, repr, fd)
    decreases |b|
  {
    assert forall k :: k in a + b ==> k in repr;
    if b == [] {
      assert a + b == a;
    } else {
      var b' := b[..|b| - 1];
      assert (a + b)[..|a + b| - 1] == a + b';
      assert (a + b)[|a + b| - 1] == b[|b| - 1];
      assert forall k :: k in b' ==> k in b;
      TokensAppend(a, b', repr, fd);
    }
  }

  /** Taking the element at `j` out of a list takes one copy of it out of its multiset. */
  lemma RemoveAt(o: seq<string>, j: nat)
    requires j < |o|
    ensures multiset(o[..j] + o[j + 1..]) == multiset(o) - multiset{o[j]}
  {
    assert o == o[..j] + [o[j]] + o[j + 1..];
  }

  /** The tokens of the key at `j` can be split off from those of the others. */
  lemma TokensSplit(o: seq<string>, j: nat, repr: map<string, seq<string>>, fd: string)
    requires j < |o|
    requires forall k :: k in o ==> k in repr
    ensures forall k :: k in o[..j] + o[j + 1..] ==> k in repr
    ensures multiset(Tokens(o, repr, fd))
      == multiset(Tokens(o[..j] + o[j + 1..], repr, fd)) + multiset(KeyTokens(o[j], repr[o[j]], fd))
  {
    var left, right, x := o[..j], o[j + 1..], o[j];
    assert o == (left + [x]) + right;
    assert forall k :: k in left + [x] ==> k in repr;
    assert forall k :: k in right ==> k in repr;
    TokensSnoc(left, x, repr, fd);
    TokensAppend(left + [x], right, repr, fd);
    TokensAppend(left, right, repr, fd);
    var lt, kt, rt := Tokens(left, repr, fd), KeyTokens(x, repr[x], fd), Tokens(right, repr, fd);
    assert multiset((lt + kt) + rt) == multiset(lt) + multiset(kt) + multiset(rt);
  }

  /** Visiting one more key appends its tokens. */
  lemma TokensSnoc(keys: seq<string>, k: string, repr: map<string, seq<string>>, fd: string)
    requires forall x :: x in keys + [k] ==> x in repr
    ensures forall x :: x in keys ==> x in repr
    ensures Tokens(keys + [k], repr, fd) == Tokens(keys, repr, fd) + KeyTokens(k, repr[k], fd)
  {
    assert forall x :: x in keys ==> x in keys + [k];
    assert (keys + [k])[..|keys|] == keys;
  }

  /** The multiset of tokens does not depend on the order the keys are visited in. */
  lemma {:induction false} TokensPermutation(o1: seq<string>, o2: seq<string>, repr: map<string, seq<string>>, fd: string)
    requires multiset(o1) == multiset(o2)
    requires forall k :: k in o1 ==> k in repr
    ensures forall k :: k in o2 ==> k in repr
    ensures multiset(Tokens(o1, repr, fd)) == multiset(Tokens(o2, repr, fd))
    decreases |o1|
  {
    forall k | k in o2
      ensures k in repr
    {
      assert k in multiset(o2);
    }
    if o1 != [] {
      var n := |o1| - 1;
      var k := o1[n];
      assert k in multiset(o2);
      var j :| 0 <= j < |o2| && o2[j] == k;
      RemoveAt(o1, n);
      RemoveAt(o2, j);
      assert o1[..n] + o1[n + 1..] == o1[..n];
      TokensSplit(o2, j, repr, fd);
      assert forall x :: x in o1[..n] ==> x in o1;
      TokensPermutation(o1[..n], o2[..j] + o2[j + 1..], repr, fd);
    }
  }

  /** Each token comes from one visited key, and each visited key contributes
      all of its tokens. */
  lemma {:induction false} TokensMembers(keys: seq<string>, repr: map<string, seq<string>>, fd: string, t: string)
    requires forall k :: k in keys ==> k in repr
    ensures t in Tokens(keys, repr, fd) <==> exists k :: k in keys && t in KeyTokens(k, repr[k], fd)
  {
    if keys != [] {
      var init, last := keys[..|keys| - 1], keys[|keys| - 1];
      assert forall k :: k in init ==> k in keys;
      TokensMembers(init, repr, fd, t);
      assert keys == init + [last];
    }
  }

  /** Every token starts with its key, so no token is empty when no key is. */
  lemma {:induction false} TokensNonEmpty(keys: seq<string>, repr: map<string, seq<string>>, fd: string)
    requires forall k :: k in keys ==> k in repr && k != ""
    ensures |Tokens(keys, repr, fd)| >= |keys|
    ensures forall t :: t in Tokens(keys, repr, fd) ==> t != ""
  {
    if keys != [] {
      var init, k := keys[..|keys| - 1], keys[|keys| - 1];
      assert forall x :: x in init ==> x in keys;
      TokensNonEmpty(init, repr, fd);
      var kt := KeyTokens(k, repr[k], fd);
      forall t | t in kt
        ensures t != ""
      {
        if repr[k] != [] {
          var i :| 0 <= i < |kt| && kt[i] == t;
          assert t[..|k|] == k;
        }
      }
    }
  }

  /** With keys that are never empty, a non-empty map always writes something
      after `ParamKey=`, so only the empty map yields the empty result. */
  lemma JoinTokensNonEmpty(order: seq<string>, repr: map<string, seq<string>>, fd: string, d: string)
    requires "" !in repr && repr != map[]
    requires IsEnumeration(order, repr)
    ensures forall k :: k in order ==> k in repr
    ensures |Join(Tokens(order, repr, fd), d)| > 0
  {
    forall k | k in order
      ensures k in repr
    {
      assert k in multiset(order);
    }
    var k :| k in repr;
    assert k in multiset(repr.Keys);
    assert order != [];
    TokensNonEmpty(order, repr, fd);
    var ts := Tokens(order, repr, fd);
    assert ts[|ts| - 1] in ts;
    JoinNonEmpty(ts, d);
  }
}
