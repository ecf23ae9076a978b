/** The canonical text of a parameter map: its pairs, sorted by key, joined into one string that is then hashed. */
module Canonical {
  import opened GoStrings
  import opened Sequences

  const EQUALS: Byte := 61     // '='
  const AMPERSAND: Byte := 38  // '&'

  // ---------- Sorting ----------

  function InsertSorted(key: GoString, keys: seq<GoString>): (r: seq<GoString>)
    requires StrictlySorted(keys) && key !in keys
    ensures StrictlySorted(r) && |r| == |keys| + 1 && forall k :: k in r <==> k == key || k in keys
  {
    if keys == [] then [key]
    else if Less(key, keys[0]) then
      assert forall j | 0 < j < |keys| :: Less(key, keys[j]) by {
        forall j | 0 < j < |keys| ensures Less(key, keys[j]) { LessTransitive(key, keys[0], keys[j]); }
      }
      [key] + keys
    else
      LessTotal(key, keys[0]);
      var rest := InsertSorted(key, keys[1..]);
      assert forall j | 0 <= j < |rest| :: Less(keys[0], rest[j]) by {
        forall j | 0 <= j < |rest| ensures Less(keys[0], rest[j]) {
          assert rest[j] in rest;
        }
      }
      [keys[0]] + rest
  }

  /** What the library's sort makes of distinct strings. */
  function Sort(keys: seq<GoString>): (r: seq<GoString>)
    requires Distinct(keys)
    ensures StrictlySorted(r) && forall k :: k in r <==> k in keys
  {
    if keys == [] then [] else InsertSorted(keys[0], Sort(keys[1..]))
  }

  lemma NonEmptyHasMember(keys: seq<GoString>)
    ensures keys == [] || exists k :: k in keys
  {
    if keys != [] { assert keys[0] in keys; }
  }

  /** One set of strings has one sorted order. */
  lemma {:induction false} SortedIsUnique(a: seq<GoString>, b: seq<GoString>)
    requires StrictlySorted(a) && StrictlySorted(b) && forall k :: k in a <==> k in b
    ensures a == b
  {
    NonEmptyHasMember(a);
    NonEmptyHasMember(b);
    if a == [] {
    } else {
      assert a[0] in b && (b == [] || b[0] in a);
      if a[0] != b[0] {
        LessTransitive(a[0], b[0], a[0]);
        LessIrreflexive(a[0]);
        assert false;
      }
      forall k ensures k in a[1..] <==> k in b[1..] {
        LessIrreflexive(a[0]);
        assert k in a <==> k == a[0] || k in a[1..];
        assert k in b <==> k == b[0] || k in b[1..];
      }
      SortedIsUnique(a[1..], b[1..]);
    }
  }

  /** The keys of a set in order. */
  ghost function SortedKeys(keys: set<GoString>): (r: seq<GoString>)
    ensures StrictlySorted(r) && |r| == |keys| && forall k :: k in r <==> k in keys
  {
    if keys == {} then []
    else
      var key :| key in keys;
      InsertSorted(key, SortedKeys(keys - {key}))
  }

  // ---------- The text ----------

  function Element(key: GoString, value: GoString): GoString {
    key + [EQUALS] + value
  }

  function Elements(m: map<GoString, GoString>, keys: seq<GoString>): (r: seq<GoString>)
    requires forall k <- keys :: k in m
    ensures |r| == |keys| && forall i | 0 <= i < |r| :: r[i] == Element(keys[i], m[keys[i]])
  {
    seq(|keys|, i requires 0 <= i < |keys| => Element(keys[i], m[keys[i]]))
  }

  function Join(elements: seq<GoString>): GoString {
    if elements == [] then []
    else if |elements| == 1 then elements[0]
    else elements[0] + [AMPERSAND] + Join(elements[1..])
  }

  ghost function CanonicalText(m: map<GoString, GoString>): GoString {
    Join(Elements(m, SortedKeys(m.Keys)))
  }

  function HexDigit(x: int): Byte
    requires 0 <= x < 16
  {
    if x < 10 then 48 + x else 87 + x
  }

  function Hex(data: seq<Byte>): GoString {
    if data == [] then [] else [HexDigit(data[0] / 16), HexDigit(data[0] % 16)] + Hex(data[1..])
  }

  /** Two lower-case digits for every byte, the high one first. */
  lemma HexDigits(b: Byte)
    ensures Hex([b]) == ["0123456789abcdef"[b / 16] as Byte, "0123456789abcdef"[b % 16] as Byte]
  {
    HexDigitIs(b / 16);
    HexDigitIs(b % 16);
    assert [b][1..] == [];
  }

  lemma HexDigitIs(x: int)
    requires 0 <= x < 16
    ensures "0123456789abcdef"[x] as int < 256 && HexDigit(x) == "0123456789abcdef"[x] as int
  {
  }

  lemma {:induction false} HexInTwo(a: seq<Byte>, b: seq<Byte>)
    ensures Hex(a + b) == Hex(a) + Hex(b)
  {
    if a == [] {
      assert a + b == b;
    } else {
      assert (a + b)[0] == a[0] && (a + b)[1..] == a[1..] + b;
      HexInTwo(a[1..], b);
    }
  }

  lemma {:induction false} HexInjective(a: seq<Byte>, b: seq<Byte>)
    requires Hex(a) == Hex(b)
    ensures a == b
  {
    if a == [] || b == [] {
    } else {
      assert Hex(a)[0] == HexDigit(a[0] / 16) && Hex(a)[1] == HexDigit(a[0] % 16);
      assert Hex(b)[0] == HexDigit(b[0] / 16) && Hex(b)[1] == HexDigit(b[0] % 16);
      assert a[0] == b[0];
      assert Hex(a[1..]) == Hex(a)[2..] && Hex(b[1..]) == Hex(b)[2..];
      HexInjective(a[1..], b[1..]);
      assert a == [a[0]] + a[1..] && b == [b[0]] + b[1..];
    }
  }

  /** Whatever order the map hands out its keys in, the digest is that of the canonical text. */
  method Sha256(valueMap: map<GoString, GoString>, sum: seq<Byte> -> seq<Byte>) returns (res: GoString)
    ensures res == Hex(sum(CanonicalText(valueMap)))
  {
    var keys := CollectKeys(valueMap);
    keys := Sort(keys);
    assert keys == SortedKeys(valueMap.Keys) by { SortedIsUnique(keys, SortedKeys(valueMap.Keys)); }
    var elements := BuildElements(valueMap, keys);
    var src := Join(elements);
    res := Hex(sum(src));
  }

  /** Iterates over a map, whose order is arbitrary. */
  method CollectKeys(valueMap: map<GoString, GoString>) returns (keys: seq<GoString>)
    ensures Distinct(keys) && forall k :: k in keys <==> k in valueMap
  {
    keys := [];
    var left := valueMap.Keys;
    while left != {}
      invariant left <= valueMap.Keys
      invariant Distinct(keys) && forall k :: k in keys <==> k in valueMap && k !in left
      decreases left
    {
      var k :| k in left;
      keys := keys + [k];
      left := left - {k};
    }
  }

  method BuildElements(valueMap: map<GoString, GoString>, keys: seq<GoString>) returns (elements: seq<GoString>)
    requires forall k <- keys :: k in valueMap
    ensures elements == Elements(valueMap, keys)
  {
    elements := [];
    for i := 0 to |keys|
      invariant elements == Elements(valueMap, keys)[..i]
    {
      elements := elements + [Element(keys[i], valueMap[keys[i]])];
    }
  }

  // ---------- When the text determines the map ----------

  /** No key holds '=' or '&', and no value '&'. */
  ghost predicate Clean(m: map<GoString, GoString>) {
    forall k <- m.Keys :: EQUALS !in k && AMPERSAND !in k && AMPERSAND !in m[k]
  }

  function Before(text: GoString, separator: Byte): (r: GoString)
    ensures |r| <= |text|
  {
    if text == [] || text[0] == separator then [] else [text[0]] + Before(text[1..], separator)
  }

  lemma {:induction false} BeforeSeparator(a: GoString, separator: Byte, rest: GoString)
    requires separator !in a
    ensures Before(a + [separator] + rest, separator) == a
    ensures Before(a, separator) == a
  {
    if a == [] {
    } else {
      BeforeSeparator(a[1..], separator, rest);
      assert (a + [separator] + rest)[1..] == a[1..] + [separator] + rest;
    }
  }

  lemma SplitAt(a: GoString, b: GoString, separator: Byte, restA: GoString, restB: GoString)
    requires separator !in a && separator !in b
    requires a + [separator] + restA == b + [separator] + restB
    ensures a == b && restA == restB
  {
    var text := a + [separator] + restA;
    BeforeSeparator(a, separator, restA);
    BeforeSeparator(b, separator, restB);
    assert text[|a| + 1..] == restA && text[|b| + 1..] == restB;
  }

  lemma JoinSeparates(elements: seq<GoString>)
    requires elements != [] && AMPERSAND !in elements[0]
    ensures AMPERSAND in Join(elements) <==> |elements| > 1
  {
    if |elements| > 1 { assert Join(elements)[|elements[0]|] == AMPERSAND; }
  }

  lemma {:induction false} JoinInjective(a: seq<GoString>, b: seq<GoString>)
    requires forall e <- a :: AMPERSAND !in e && e != []
    requires forall e <- b :: AMPERSAND !in e && e != []
    requires Join(a) == Join(b)
    ensures a == b
  {
    assert (a != [] ==> a[0] in a) && (b != [] ==> b[0] in b);
    if a == [] || b == [] {
    } else {
      assert forall e <- a[1..] :: e in a;
      assert forall e <- b[1..] :: e in b;
      var restA, restB := Join(a[1..]), Join(b[1..]);
      JoinSeparates(a);
      JoinSeparates(b);
      if |a| > 1 {
        SplitAt(a[0], b[0], AMPERSAND, restA, restB);
        JoinInjective(a[1..], b[1..]);
        assert a == [a[0]] + a[1..] && b == [b[0]] + b[1..];
      }
    }
  }

  lemma CleanElements(m: map<GoString, GoString>)
    requires Clean(m)
    ensures forall e <- Elements(m, SortedKeys(m.Keys)) :: AMPERSAND !in e && e != []
  {
    var keys := SortedKeys(m.Keys);
    forall i | 0 <= i < |keys| ensures AMPERSAND !in Element(keys[i], m[keys[i]]) {
      assert keys[i] in keys;
    }
  }

  /** Clean maps with the same canonical text are the same map. */
  lemma CanonicalTextInjective(a: map<GoString, GoString>, b: map<GoString, GoString>)
    requires Clean(a) && Clean(b) && CanonicalText(a) == CanonicalText(b)
    ensures a == b
  {
    var keysA, keysB := SortedKeys(a.Keys), SortedKeys(b.Keys);
    var elementsA, elementsB := Elements(a, keysA), Elements(b, keysB);
    CleanElements(a);
    CleanElements(b);
    JoinInjective(elementsA, elementsB);
    forall i | 0 <= i < |keysA| ensures keysA[i] == keysB[i] && a[keysA[i]] == b[keysB[i]] {
      assert keysA[i] in keysA && keysB[i] in keysB;
      assert elementsA[i] == elementsB[i];
      SplitAt(keysA[i], keysB[i], EQUALS, a[keysA[i]], b[keysB[i]]);
    }
    assert keysA == keysB;
    forall k ensures k in a <==> k in b {
      assert k in keysA <==> k in keysB;
    }
    forall k | k in a ensures a[k] == b[k] {
      assert k in keysA;
    }
  }

  // ---------- When the text determines the map though only one of two is clean ----------

  function Count(text: GoString, c: Byte): (n: nat)
    ensures n == 0 <==> c !in text
  {
    if text == [] then 0 else (if text[0] == c then 1 else 0) + Count(text[1..], c)
  }

  lemma {:induction false} CountAdds(a: GoString, b: GoString, c: Byte)
    ensures Count(a + b, c) == Count(a, c) + Count(b, c)
  {
    if a == [] {
      assert a + b == b;
    } else {
      assert (a + b)[0] == a[0] && (a + b)[1..] == a[1..] + b;
      CountAdds(a[1..], b, c);
    }
  }

  /** A joined text has a separator less than elements, and no more exactly if the elements hold none. */
  lemma {:induction false} JoinCounts(elements: seq<GoString>)
    requires elements != []
    ensures Count(Join(elements), AMPERSAND) >= |elements| - 1
    ensures Count(Join(elements), AMPERSAND) == |elements| - 1 <==> forall e <- elements :: AMPERSAND !in e
  {
    if |elements| == 1 {
      assert elements[0] in elements;
    } else {
      var rest := Join(elements[1..]);
      JoinCounts(elements[1..]);
      CountAdds(elements[0] + [AMPERSAND], rest, AMPERSAND);
      CountAdds(elements[0], [AMPERSAND], AMPERSAND);
      assert elements[0] in elements && forall e <- elements[1..] :: e in elements;
      assert forall e <- elements :: e == elements[0] || e in elements[1..];
    }
  }

  lemma SameSize(some: set<GoString>, all: set<GoString>)
    requires some <= all
    ensures |some| <= |all| && (|some| == |all| ==> some == all)
  {
    assert all == some + (all - some);
  }

  /** A map with the text of a clean one, and with all its keys, has no further key and is clean itself: every
      separator of the text is needed between elements. */
  lemma CleanAsWell(clean: map<GoString, GoString>, other: map<GoString, GoString>)
    requires Clean(clean) && clean.Keys <= other.Keys && CanonicalText(clean) == CanonicalText(other)
    ensures Clean(other)
  {
    SameSize(clean.Keys, other.Keys);
    if other.Keys != {} {
      var keys := SortedKeys(other.Keys);
      var elements := Elements(other, keys);
      JoinCounts(elements);
      CleanCounts(clean);
      assert clean.Keys == other.Keys;
      forall k <- other.Keys ensures EQUALS !in k && AMPERSAND !in k && AMPERSAND !in other[k] {
        var i :| 0 <= i < |keys| && keys[i] == k;
        assert elements[i] in elements && elements[i] == Element(k, other[k]);
      }
    }
  }

  lemma CleanCounts(m: map<GoString, GoString>)
    requires Clean(m)
    ensures Count(CanonicalText(m), AMPERSAND) == if m.Keys == {} then 0 else |m.Keys| - 1
    ensures m.Keys == {} <==> CanonicalText(m) == []
  {
    var elements := Elements(m, SortedKeys(m.Keys));
    CleanElements(m);
    if elements != [] { JoinCounts(elements); }
  }

  /** A map with the text of a clean one is that map exactly if it has all its keys. */
  lemma TextBindsKeys(clean: map<GoString, GoString>, other: map<GoString, GoString>)
    requires Clean(clean) && CanonicalText(clean) == CanonicalText(other)
    ensures other == clean <==> clean.Keys <= other.Keys
  {
    if clean.Keys <= other.Keys {
      CleanAsWell(clean, other);
      CanonicalTextInjective(clean, other);
    }
  }

  /** A value that swallows the pair after it. */
  function Merged(value: GoString, second: GoString, other: GoString): GoString {
    value + [AMPERSAND] + Element(second, other)
  }

  /** The map in which the value of one key has swallowed the pair of another. */
  function Swallowed(m: map<GoString, GoString>, first: GoString, second: GoString): map<GoString, GoString>
    requires first in m && second in m
  {
    (m - {second})[first := Merged(m[first], second, m[second])]
  }

  /** Joining does not tell two neighbours from one element with the separator between them. */
  lemma {:induction false} JoinMerges(before: seq<GoString>, x: GoString, y: GoString, after: seq<GoString>)
    ensures Join(before + [x, y] + after) == Join(before + [x + [AMPERSAND] + y] + after)
  {
    var two, one := before + [x, y] + after, before + [x + [AMPERSAND] + y] + after;
    if before == [] {
      assert two[1..] == [y] + after && one[1..] == after;
      if after == [] {
        assert two == [x, y] && one == [x + [AMPERSAND] + y];
      } else {
        assert two[1..][1..] == after;
        Regroup(x + [AMPERSAND], y, [AMPERSAND] + Join(after));
        Regroup(y, [AMPERSAND], Join(after));
        Regroup(x + [AMPERSAND] + y, [AMPERSAND], Join(after));
      }
    } else {
      assert two[1..] == before[1..] + [x, y] + after;
      assert one[1..] == before[1..] + [x + [AMPERSAND] + y] + after;
      JoinMerges(before[1..], x, y, after);
    }
  }

  /** Where a key and the next one stand among the sorted keys. */
  lemma Neighbours(keys: set<GoString>, first: GoString, second: GoString)
      returns (before: seq<GoString>, after: seq<GoString>)
    requires first in keys && second in keys && Less(first, second)
    requires forall k <- keys :: !(Less(first, k) && Less(k, second))
    ensures SortedKeys(keys) == before + [first, second] + after
  {
    var sorted := SortedKeys(keys);
    var i :| 0 <= i < |sorted| && sorted[i] == first;
    var j :| 0 <= j < |sorted| && sorted[j] == second;
    NextTo(sorted, i, j);
    before, after := sorted[..i], sorted[i + 2..];
    PairOf(sorted, i);
  }

  lemma PairOf(keys: seq<GoString>, i: nat)
    requires i + 1 < |keys|
    ensures keys == keys[..i] + [keys[i], keys[i + 1]] + keys[i + 2..]
  {
  }

  lemma NextTo(sorted: seq<GoString>, i: nat, j: nat)
    requires StrictlySorted(sorted) && i < |sorted| && j < |sorted| && Less(sorted[i], sorted[j])
    requires forall k <- sorted :: !(Less(sorted[i], k) && Less(k, sorted[j]))
    ensures j == i + 1
  {
    LessIrreflexive(sorted[i]);
    if j < i {
      LessTransitive(sorted[i], sorted[j], sorted[i]);
      assert false;
    }
    assert i < j && sorted[i + 1] in sorted;
  }

  /** Sorted keys without one of them. */
  lemma WithoutSecond(before: seq<GoString>, first: GoString, second: GoString, after: seq<GoString>)
    requires StrictlySorted(before + [first, second] + after)
    ensures StrictlySorted(before + [first] + after)
    ensures first !in before + after && second !in before + after && first != second
  {
    var sorted, fewer := before + [first, second] + after, before + [first] + after;
    assert sorted[|before|] == first && sorted[|before| + 1] == second;
    forall i, j | 0 <= i < j < |fewer| ensures Less(fewer[i], fewer[j]) {
      assert fewer[i] == sorted[if i <= |before| then i else i + 1];
      assert fewer[j] == sorted[if j <= |before| then j else j + 1];
    }
    LessIrreflexive(first);
    LessIrreflexive(second);
    forall i | 0 <= i < |before + after| ensures (before + after)[i] != first && (before + after)[i] != second {
      assert (before + after)[i] == sorted[if i < |before| then i else i + 2];
    }
  }

  lemma ElementsInTwo(m: map<GoString, GoString>, some: seq<GoString>, rest: seq<GoString>)
    requires forall k <- some + rest :: k in m
    ensures (forall k <- some :: k in m) && (forall k <- rest :: k in m)
    ensures Elements(m, some + rest) == Elements(m, some) + Elements(m, rest)
  {
    assert forall k <- some :: k in some + rest;
    assert forall k <- rest :: k in some + rest;
  }

  lemma JoinFirst(first: GoString, rest: seq<GoString>)
    ensures Join([first] + rest) == first + if rest == [] then [] else [AMPERSAND] + Join(rest)
  {
    assert ([first] + rest)[1..] == rest;
    if rest != [] { Regroup(first, [AMPERSAND], Join(rest)); }
  }

  lemma SortedFromLeast(all: seq<GoString>, least: GoString, rest: seq<GoString>)
    requires StrictlySorted(all) && StrictlySorted(rest)
    requires (forall k <- rest :: Less(least, k)) && forall k :: k in all <==> k == least || k in rest
    ensures all == [least] + rest
  {
    forall i, j | 0 <= i < j < |[least] + rest| ensures Less(([least] + rest)[i], ([least] + rest)[j]) {
      assert ([least] + rest)[j] == rest[j - 1] && rest[j - 1] in rest;
    }
    SortedIsUnique(all, [least] + rest);
  }

  /** The text begins with the pair of the least key as key=value; then, after an '&', comes that of the others. */
  lemma TextFromLeast(m: map<GoString, GoString>, least: GoString)
    requires least in m && forall k <- m.Keys :: k == least || Less(least, k)
    ensures CanonicalText(m) ==
            least + ['=' as Byte] + m[least]
            + if m.Keys == {least} then [] else ['&' as Byte] + CanonicalText(m - {least})
  {
    var others := m - {least};
    TextOfSorted(m, least, SortedKeys(m.Keys), SortedKeys(others.Keys));
  }

  lemma TextOfSorted(m: map<GoString, GoString>, least: GoString, all: seq<GoString>, rest: seq<GoString>)
    requires least in m && forall k <- m.Keys :: k == least || Less(least, k)
    requires StrictlySorted(all) && forall k :: k in all <==> k in m
    requires StrictlySorted(rest) && forall k :: k in rest <==> k in m && k != least
    ensures Join(Elements(m, all)) ==
            least + ['=' as Byte] + m[least]
            + if m.Keys == {least} then [] else ['&' as Byte] + Join(Elements(m - {least}, rest))
  {
    SortedFromLeast(all, least, rest);
    ElementsInTwo(m, [least], rest);
    assert Elements(m, [least]) == [Element(least, m[least])] && Elements(m, rest) == Elements(m - {least}, rest);
    JoinFirst(Element(least, m[least]), Elements(m - {least}, rest));
    NothingLeft(m, least, rest);
  }

  lemma NothingLeft(m: map<GoString, GoString>, least: GoString, rest: seq<GoString>)
    requires least in m && forall k :: k in rest <==> k in m && k != least
    ensures rest == [] <==> m.Keys == {least}
  {
    if rest == [] {
      assert forall k <- m.Keys :: k == least;
      assert m.Keys == {least};
    } else {
      assert rest[0] in rest;
    }
  }

  lemma MergedElement(m: map<GoString, GoString>, first: GoString, second: GoString)
    requires first in m && second in m && first != second
    ensures Element(first, Swallowed(m, first, second)[first]) ==
            Element(first, m[first]) + [AMPERSAND] + Element(second, m[second])
  {
    Regroup(first + [EQUALS], m[first], [AMPERSAND]);
    Regroup(first + [EQUALS], m[first] + [AMPERSAND], Element(second, m[second]));
  }

  lemma MergedElements(m: map<GoString, GoString>, before: seq<GoString>, first: GoString, second: GoString,
                       after: seq<GoString>)
    requires first in m && second in m && first != second
    requires first !in before + after && second !in before + after
    requires forall k <- before + [first, second] + after :: k in m
    ensures forall k <- before + [first] + after :: k in Swallowed(m, first, second)
    ensures Join(Elements(Swallowed(m, first, second), before + [first] + after)) ==
            Join(Elements(m, before + [first, second] + after))
  {
    var one := Swallowed(m, first, second);
    assert forall k <- before + after :: k in before + [first, second] + after;
    assert forall k <- before :: k in before + after;
    assert forall k <- after :: k in before + after;
    ElementsInTwo(m, before + [first, second], after);
    ElementsInTwo(m, before, [first, second]);
    ElementsInTwo(one, before + [first], after);
    ElementsInTwo(one, before, [first]);
    assert Elements(one, before) == Elements(m, before) && Elements(one, after) == Elements(m, after);
    MergedElement(m, first, second);
    var x, y := Element(first, m[first]), Element(second, m[second]);
    assert Elements(m, [first, second]) == [x, y] && Elements(one, [first]) == [x + [AMPERSAND] + y];
    JoinMerges(Elements(m, before), x, y, Elements(m, after));
  }

  /** In every map, clean or not, the value of a key may swallow the pair that comes next, and the text is the same:
      {a: "1", b: "2"} and {a: "1&b=2"}. */
  lemma AmpersandIsAmbiguous(m: map<GoString, GoString>, first: GoString, second: GoString)
    requires first in m && second in m && Less(first, second)
    requires forall k <- m.Keys :: !(Less(first, k) && Less(k, second))
    ensures CanonicalText(Swallowed(m, first, second)) == CanonicalText(m)
    ensures first != second
  {
    var before, after := Neighbours(m.Keys, first, second);
    WithoutSecond(before, first, second, after);
    MergedElements(m, before, first, second, after);
    var all, fewer := before + [first, second] + after, before + [first] + after;
    forall k ensures k in fewer <==> k in Swallowed(m, first, second).Keys {
      assert k in all <==> k in before + after || k == first || k == second;
      assert k in fewer <==> k in before + after || k == first;
    }
    SortedIsUnique(SortedKeys(Swallowed(m, first, second).Keys), fewer);
  }
}
