/**
  The toolbelt's `StringUtilities`: the null-or-empty test and `makeString`,
  which joins a collection's elements between a prefix and a suffix. Elements
  are taken in their already-rendered string form.
 */
module StringUtilities {
  import opened Java

  /** `isEmpty(s)`: `s` is `null` or has no characters. */
  function IsEmpty(s: Nullable<string>): (r: bool)
    ensures r <==> s == Null || s == Ref("")
  {
    s.Null? || |s.obj| == 0
  }

  /** The elements with `separator` between neighbours: nothing before the
      first element and nothing after the last. */
  function Join(elements: seq<string>, separator: string): string
  {
    if |elements| == 0 then ""
    else if |elements| == 1 then elements[0]
    else elements[0] + separator + Join(elements[1..], separator)
  }

  /** Number of separators between `n` elements. */
  function Gaps(n: nat): nat {
    if n == 0 then 0 else n - 1
  }

  function SumLengths(elements: seq<string>): nat {
    if |elements| == 0 then 0 else |elements[0]| + SumLengths(elements[1..])
  }

  /** All pieces glued together in order. */
  function Concat(pieces: seq<string>): string {
    if |pieces| == 0 then "" else pieces[0] + Concat(pieces[1..])
  }

  /** The pieces a joined string is made of, listed by position: elements at
      the even positions, the separator at the odd ones. */
  function Tokens(elements: seq<string>, separator: string): seq<string>
  {
    seq(|elements| + Gaps(|elements|),
        k requires 0 <= k < |elements| + Gaps(|elements|) =>
          if k % 2 == 0 then elements[k / 2] else separator)
  }

  /** The four-argument `makeString(collection, prefix, separator, suffix)`:
      `""` for a `null` collection, otherwise the prefix, the joined elements
      and the suffix. */
  function MakeString(collection: Nullable<seq<string>>, prefix: string, separator: string, suffix: string): (r: string)
    ensures collection.Null? ==> r == ""
    ensures collection.Ref? ==>
      && |r| == |prefix| + SumLengths(collection.obj) + Gaps(|collection.obj|) * |separator| + |suffix|
      && prefix <= r
      && r[|r| - |suffix|..] == suffix
    ensures collection == Ref([]) ==> r == prefix + suffix
  {
    if collection.Null? then ""
    else
      JoinLength(collection.obj, separator);
      prefix + Join(collection.obj, separator) + suffix
  }

  /** The two-argument `makeString(collection, separator)`: no prefix, no
      suffix. */
  function MakeStringWithSeparator(collection: Nullable<seq<string>>, separator: string): (r: string)
    ensures collection.Null? || collection == Ref([]) ==> r == ""
    ensures collection.Ref? ==> r == Join(collection.obj, separator)
  {
    MakeString(collection, "", separator, "")
  }

  /** `makeString` as the Java code computes it: a builder seeded with the
      prefix, each element appended followed by the separator unless it is the
      last, then the suffix. */
  method BuildString(collection: Nullable<seq<string>>, prefix: string, separator: string, suffix: string)
    returns (r: string)
    ensures r == MakeString(collection, prefix, separator, suffix)
    ensures collection.Ref? ==> r == prefix + Concat(Tokens(collection.obj, separator)) + suffix
  {
    if collection.Null? {
      return "";
    }
    var elements := collection.obj;
    var builder := prefix;
    var size := |elements|;
    if size > 0 {
      var i := 0;
      while i < size
        invariant 0 <= i <= size
        invariant builder == prefix + Join(elements[..i], separator) + (if 0 < i < size then separator else "")
      {
        JoinStep(elements, i, separator);
        builder := builder + elements[i];
        if i < size - 1 {
          builder := builder + separator;
        }
        i := i + 1;
      }
      assert elements[..size] == elements;
    }
    builder := builder + suffix;
    r := builder;
    JoinLayout(elements, separator);
  }

  /** One more element extends the join by a separator (unless it is the
      first) and the element. */
  lemma JoinStep(elements: seq<string>, i: nat, separator: string)
    requires i < |elements|
    ensures Join(elements[..i + 1], separator)
         == Join(elements[..i], separator) + (if i > 0 then separator else "") + elements[i]
  {
    assert elements[..i + 1] == elements[..i] + [elements[i]];
    if i > 0 {
      JoinAppend(elements[..i], [elements[i]], separator);
    }
  }

  /** Joining two non-empty runs puts exactly one separator between them. */
  lemma {:induction false} JoinAppend(a: seq<string>, b: seq<string>, separator: string)
    requires |a| > 0 && |b| > 0
    ensures Join(a + b, separator) == Join(a, separator) + separator + Join(b, separator)
    decreases |a|
  {
    if |a| == 1 {
      assert (a + b)[1..] == b;
    } else {
      assert (a + b)[1..] == a[1..] + b;
      JoinAppend(a[1..], b, separator);
    }
  }

  /** The joined length: every element once and one separator per gap. */
  lemma {:induction false} JoinLength(elements: seq<string>, separator: string)
    ensures |Join(elements, separator)| == SumLengths(elements) + Gaps(|elements|) * |separator|
    decreases |elements|
  {
    if |elements| > 1 {
      JoinLength(elements[1..], separator);
      assert Gaps(|elements|) * |separator| == |separator| + Gaps(|elements| - 1) * |separator|;
    }
  }

  lemma {:induction false} ConcatAppend(a: seq<string>, b: seq<string>)
    ensures Concat(a + b) == Concat(a) + Concat(b)
    decreases |a|
  {
    if |a| == 0 {
      assert a + b == b;
    } else {
      assert (a + b)[1..] == a[1..] + b;
      ConcatAppend(a[1..], b);
    }
  }

  /** The joined string is the element, separator, element, ... pieces in
      order: `n` elements give `n - 1` separators, one between each pair of
      neighbours and none after the last. */
  lemma {:induction false} JoinLayout(elements: seq<string>, separator: string)
    ensures Concat(Tokens(elements, separator)) == Join(elements, separator)
    ensures |Tokens(elements, separator)| == |elements| + Gaps(|elements|)
    ensures forall k :: 0 <= k < |Tokens(elements, separator)| && k % 2 == 0 ==>
      Tokens(elements, separator)[k] == elements[k / 2]
    ensures forall k :: 0 <= k < |Tokens(elements, separator)| && k % 2 == 1 ==>
      Tokens(elements, separator)[k] == separator
    decreases |elements|
  {
    var t := Tokens(elements, separator);
    if |elements| == 1 {
      assert t == [elements[0]];
      assert t[1..] == [];
    } else if |elements| > 1 {
      var rest := Tokens(elements[1..], separator);
      assert t == [elements[0], separator] + rest by {
        forall k | 2 <= k < |t|
          ensures t[k] == rest[k - 2]
        {
          assert (k - 2) % 2 == k % 2;
          assert (k - 2) / 2 + 1 == k / 2;
        }
      }
      ConcatAppend([elements[0], separator], rest);
      assert [elements[0], separator][1..] == [separator];
      JoinLayout(elements[1..], separator);
    }
  }

  /** The unit-test expectations. */
  lemma Examples()
    ensures IsEmpty(Null) && IsEmpty(Ref(""))
    ensures MakeString(Null, "[", ", ", "]") == ""
    ensures MakeString(Ref([]), "[", ", ", "]") == "[]"
    ensures MakeString(Ref(["foo", "bar", "baz"]), "['", "', '", "']") == "['foo', 'bar', 'baz']"
    ensures MakeStringWithSeparator(Null, ", ") == ""
    ensures MakeStringWithSeparator(Ref([]), ", ") == ""
    ensures MakeStringWithSeparator(Ref(["foo", "bar", "baz"]), ", ") == "foo, bar, baz"
  {
    var foobarbaz := ["foo", "bar", "baz"];
    assert foobarbaz[1..] == ["bar", "baz"];
    assert foobarbaz[1..][1..] == ["baz"];
  }
}
