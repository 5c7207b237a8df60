/**
 * A list of "name=value" pairs sorted once and searched by halving, against the rule that the last pair of a name
 * wins.
 */
module ListEnviron {
  import opened Basics
  import opened Utf8

  const EQ: Byte := 61

  // ---------- strings.Compare ----------

  /** Negative, zero or positive as a is before, equal to or after b. */
  function Compare(a: Bytes, b: Bytes): int {
    if a == [] && b == [] then 0
    else if a == [] then -1
    else if b == [] then 1
    else if a[0] != b[0] then (if a[0] < b[0] then -1 else 1)
    else Compare(a[1..], b[1..])
  }

  lemma {:induction false} CompareEqual(a: Bytes, b: Bytes)
    ensures Compare(a, b) == 0 <==> a == b
  {
    if a != [] && b != [] {
      CompareEqual(a[1..], b[1..]);
      if a[0] == b[0] && a[1..] == b[1..] { assert a == [a[0]] + a[1..] == b; }
    }
  }

  lemma {:induction false} CompareSwap(a: Bytes, b: Bytes)
    ensures Compare(a, b) == -Compare(b, a)
  {
    if a != [] && b != [] { CompareSwap(a[1..], b[1..]); }
  }

  lemma {:induction false} CompareTrans(a: Bytes, b: Bytes, c: Bytes)
    requires Compare(a, b) <= 0 && Compare(b, c) <= 0
    ensures Compare(a, c) <= 0
    ensures Compare(a, b) < 0 || Compare(b, c) < 0 ==> Compare(a, c) < 0
  {
    if a != [] && b != [] && c != [] && a[0] == b[0] == c[0] { CompareTrans(a[1..], b[1..], c[1..]); }
  }

  /** Two texts that differ within their first parts compare as those do. */
  lemma {:induction false} CompareHeads(a: Bytes, x: Bytes, b: Bytes, y: Bytes, d: nat)
    requires d < |a| && d < |b| && a[d] != b[d] && a[..d] == b[..d]
    ensures Compare(a + x, b + y) == Compare(a, b) == if a[d] < b[d] then -1 else 1
  {
    assert (a + x)[0] == a[0] && (b + y)[0] == b[0];
    if d > 0 {
      assert a[..d][0] == a[0] && b[..d][0] == b[0];
      assert (a + x)[1..] == a[1..] + x && (b + y)[1..] == b[1..] + y;
      assert a[1..][..d - 1] == a[..d][1..] && b[1..][..d - 1] == b[..d][1..];
      CompareHeads(a[1..], x, b[1..], y, d - 1);
    }
  }

  // ---------- pairs ----------

  /** Where the first "=" is; None without one. */
  function Sep(p: Bytes): (i: Option<nat>)
    ensures i.Some? ==> i.value < |p| && p[i.value] == EQ && EQ !in p[..i.value]
    ensures i.None? ==> EQ !in p
  {
    if p == [] then None
    else if p[0] == EQ then Some(0)
    else match Sep(p[1..])
      case None => None
      case Some(i) => assert p[..i + 1] == [p[0]] + p[1..][..i]; Some(i + 1)
  }

  /** What pairs are sorted by: the name with its "=", or nothing. */
  function Key(p: Bytes): Bytes {
    if Sep(p).None? then [] else p[..Sep(p).value + 1]
  }

  predicate Good(p: Bytes) {
    Sep(p).Some? && Sep(p).value > 0
  }

  function Name(p: Bytes): (n: Bytes)
    requires Good(p)
    ensures n != [] && EQ !in n && Key(p) == n + [EQ]
  {
    p[..Sep(p).value]
  }

  function ValueOf(p: Bytes): Bytes
    requires Good(p)
  {
    p[Sep(p).value + 1..]
  }

  predicate Named(p: Bytes, name: Bytes) {
    Good(p) && Name(p) == name
  }

  /** The reference: the value of the last valid pair with the name. */
  function LastValue(list: seq<Bytes>, name: Bytes): Option<Bytes> {
    if list == [] then None
    else if Named(list[|list| - 1], name) then Some(ValueOf(list[|list| - 1]))
    else LastValue(list[..|list| - 1], name)
  }

  lemma {:induction false} LastValueAppend(a: seq<Bytes>, b: seq<Bytes>, name: Bytes)
    ensures LastValue(a + b, name) == if LastValue(b, name).Some? then LastValue(b, name) else LastValue(a, name)
    decreases |b|
  {
    if b == [] {
      assert a + b == a;
    } else {
      assert (a + b)[..|a| + |b| - 1] == a + b[..|b| - 1];
      LastValueAppend(a, b[..|b| - 1], name);
    }
  }

  // ---------- stable sorting ----------

  predicate Before(p: Bytes, q: Bytes) {
    Compare(Key(p), Key(q)) <= 0
  }

  predicate Sorted(list: seq<Bytes>) {
    forall i, j :: 0 <= i < j < |list| ==> Before(list[i], list[j])
  }

  /** The pairs with a key, in order. */
  function WithKey(list: seq<Bytes>, key: Bytes): seq<Bytes> {
    if list == [] then []
    else WithKey(list[..|list| - 1], key) + IfKey(list[|list| - 1], key)
  }

  function IfKey(p: Bytes, key: Bytes): seq<Bytes> {
    if Key(p) == key then [p] else []
  }

  lemma WithKeyOne(a: seq<Bytes>, p: Bytes, key: Bytes)
    ensures WithKey(a + [p], key) == WithKey(a, key) + IfKey(p, key)
  {
    assert (a + [p])[..|a|] == a;
  }

  lemma {:induction false} WithKeyAppend(a: seq<Bytes>, b: seq<Bytes>, key: Bytes)
    ensures WithKey(a + b, key) == WithKey(a, key) + WithKey(b, key)
    decreases |b|
  {
    hide WithKey, IfKey;
    if b == [] {
      assert a + b == a;
      WithKeyNone(key);
      assert WithKey(a, key) + [] == WithKey(a, key);
    } else {
      var c, p := b[..|b| - 1], b[|b| - 1];
      assert b == c + [p];
      WithKeyAppend(a, c, key);
      WithKeyOne(c, p, key);
      WithKeyOne(a + c, p, key);
      assert a + b == a + c + [p];
      assert WithKey(a, key) + WithKey(c, key) + IfKey(p, key) == WithKey(a, key) + (WithKey(c, key) + IfKey(p, key));
    }
  }

  lemma WithKeyNone(key: Bytes)
    ensures WithKey([], key) == []
  { }

  /** Sorted, with the pairs of each key in their original order: what a stable sort returns. */
  ghost predicate StablySorted(list: seq<Bytes>, sorted: seq<Bytes>) {
    Sorted(sorted) && forall key :: WithKey(sorted, key) == WithKey(list, key)
  }

  lemma {:induction false} LastWithKey(list: seq<Bytes>, name: Bytes)
    requires name != [] && EQ !in name
    ensures var w := WithKey(list, name + [EQ]);
            LastValue(list, name) == if w == [] then None
                else (if Good(w[|w| - 1]) then Some(ValueOf(w[|w| - 1])) else None)
  {
    if list != [] {
      var p := list[|list| - 1];
      LastWithKey(list[..|list| - 1], name);
      KeyNames(p, name);
    }
  }

  lemma KeyNames(p: Bytes, name: Bytes)
    requires name != [] && EQ !in name
    ensures Key(p) == name + [EQ] <==> Named(p, name)
  {
    if Key(p) == name + [EQ] {
      var i := Sep(p).value;
      assert p[..i] == (name + [EQ])[..i] == name;
    }
  }

  /** Sorting stably leaves the last pair of every name the last. */
  lemma SortKeepsLast(list: seq<Bytes>, sorted: seq<Bytes>, name: Bytes)
    requires StablySorted(list, sorted)
    ensures LastValue(sorted, name) == LastValue(list, name)
  {
    hide WithKey, LastValue, Sorted;
    if name != [] && EQ !in name {
      LastWithKey(list, name);
      LastWithKey(sorted, name);
      assert WithKey(sorted, name + [EQ]) == WithKey(list, name + [EQ]);
    } else {
      NoSuchName(list, name);
      NoSuchName(sorted, name);
    }
  }

  lemma {:induction false} NoSuchName(list: seq<Bytes>, name: Bytes)
    requires name == [] || EQ in name
    ensures LastValue(list, name) == None
  {
    if list != [] { NoSuchName(list[..|list| - 1], name); }
  }

  /** A pair of a name is the name, "=" and the value. */
  lemma NamedIff(p: Bytes, name: Bytes)
    requires name != [] && EQ !in name
    ensures Named(p, name) <==> name + [EQ] <= p
    ensures Named(p, name) ==> p == name + [EQ] + ValueOf(p)
  {
    if name + [EQ] <= p {
      assert p[|name|] == (name + [EQ])[|name|] && p[..|name|] == (name + [EQ])[..|name|] == name;
      assert forall i :: 0 <= i < |name| ==> p[i] == p[..|name|][i];
    }
  }

  /** The last value of a name is that of the last pair that starts with the name and "=". */
  lemma {:induction false} LastValueIff(list: seq<Bytes>, name: Bytes, v: Bytes)
    requires name != [] && EQ !in name
    ensures LastValue(list, name) == Some(v) <==>
            exists i :: 0 <= i < |list| && list[i] == name + [EQ] + v
                        && forall j :: i < j < |list| ==> !(name + [EQ] <= list[j])
    decreases |list|
  {
    hide ValueOf, Good, Sep, Name;
    if list != [] {
      var n := |list| - 1;
      NamedIff(list[n], name);
      LastValueIff(list[..n], name, v);
      if Named(list[n], name) {
        assert ValueOf(list[n]) == list[n][|name| + 1..];
        assert list[n] == name + [EQ] + v <==> ValueOf(list[n]) == v;
      } else if i :| 0 <= i < n && list[..n][i] == name + [EQ] + v
                     && forall j :: i < j < n ==> !(name + [EQ] <= list[..n][j]) {
        assert list[i] == name + [EQ] + v;
        forall j | i < j < |list| ensures !(name + [EQ] <= list[j]) {
          if j < n { assert list[..n][j] == list[j]; }
        }
      } else if i :| 0 <= i < |list| && list[i] == name + [EQ] + v
                     && forall j :: i < j < |list| ==> !(name + [EQ] <= list[j]) {
        assert i < n && list[..n][i] == name + [EQ] + v;
      }
    }
  }

  // ---------- searching ----------

  /** Get's comparison of a pair with the name. */
  function Against(p: Bytes, name: Bytes): int {
    if |p| < |name| + 1 then Compare(p, name)
    else
      var c := Compare(p[..|name|], name);
      if c != 0 then c else if p[|name|] < EQ then -1 else if p[|name|] > EQ then 1 else 0
  }

  lemma {:induction false} FirstDiff(a: Bytes, b: Bytes) returns (d: nat)
    requires EQ !in a && EQ !in b && a != b
    ensures d <= |a| && d <= |b| && (d < |a| || d < |b|)
    ensures (a + [EQ])[d] != (b + [EQ])[d] && (a + [EQ])[..d] == (b + [EQ])[..d]
  {
    if a == [] {
      d := 0;
    } else if b == [] {
      d := 0;
    } else if a[0] != b[0] {
      d := 0;
    } else {
      assert a == [a[0]] + a[1..] && b == [b[0]] + b[1..];
      var e := FirstDiff(a[1..], b[1..]);
      d := e + 1;
      assert a + [EQ] == [a[0]] + (a[1..] + [EQ]) && b + [EQ] == [b[0]] + (b[1..] + [EQ]);
    }
  }

  /** The part of a name before its first "=", if it has one. */
  function Head(name: Bytes): (h: Bytes)
    ensures EQ !in h && (EQ !in name ==> h == name)
  {
    if Sep(name).None? then name else name[..Sep(name).value]
  }

  /** The part after it. */
  function Tail(name: Bytes): (r: Bytes)
    requires EQ in name
    ensures name == Head(name) + [EQ] + r
  {
    name[Sep(name).value + 1..]
  }

  predicate StartsWith(p: Bytes, q: Bytes) {
    |q| <= |p| && p[..|q|] == q
  }

  /**
   * Against a pair of another name the comparison is that of the keys, so it rises along a sorted list; against a pair
   * of the name before the "=", it is equality exactly when the pair is the name or goes on from it with "=".
   */
  lemma AgainstIsKey(p: Bytes, name: Bytes)
    requires Good(p)
    ensures Name(p) != Head(name) ==> Against(p, name) == Compare(Key(p), Head(name) + [EQ]) != 0
    ensures Against(p, name) == 0 <==> p == name || StartsWith(p, name + [EQ])
    ensures EQ !in name && Name(p) == name ==> Against(p, name) == 0
  {
    hide Compare, Sep;
    var n, h := Name(p), Head(name);
    var k := n + [EQ];
    var v := p[|k|..];
    assert p == k + v;
    AgainstZero(p, name);
    if n == h {
      if EQ !in name { assert p[..|name| + 1] == name + [EQ]; }
    } else {
      var d := FirstDiff(n, h);
      DiffKey(k, v, h, name, d);
      CompareEqual(k, h + [EQ]);
    }
  }

  lemma AgainstZero(p: Bytes, name: Bytes)
    ensures Against(p, name) == 0 <==> p == name || StartsWith(p, name + [EQ])
  {
    hide Compare;
    CompareEqual(p, name);
    if |p| > |name| {
      CompareEqual(p[..|name|], name);
      assert p[..|name| + 1] == p[..|name|] + [p[|name|]];
      assert p[..|name| + 1][..|name|] == p[..|name|];
      assert (name + [EQ])[..|name|] == name && (name + [EQ])[|name|] == EQ;
    }
  }

  lemma DiffKey(k: Bytes, v: Bytes, h: Bytes, name: Bytes, d: nat)
    requires d < |k| && d <= |h| && k[d] != (h + [EQ])[d] && k[..d] == (h + [EQ])[..d]
    requires d == |h| ==> |k| > |h|
    requires name == h || StartsWith(name, h + [EQ])
    ensures Against(k + v, name) == Compare(k, h + [EQ])
  {
    hide Compare;
    var p := k + v;
    CompareHeads(k, [], h + [EQ], [], d);
    assert k + [] == k && h + [EQ] + [] == h + [EQ];
    if d < |name| {
      var full := if name == h then h else h + [EQ];
      assert name[..d] == name[..|full|][..d] && name[d] == name[..|full|][d];
      assert name[..d] == (h + [EQ])[..d] && name[d] == (h + [EQ])[d];
      var cut := if |p| < |name| + 1 then p else p[..|name|];
      assert cut[..d] == k[..d] && cut[d] == k[d];
      CompareHeads(cut, [], name, [], d);
      assert cut + [] == cut && name + [] == name;
    } else {
      assert p[..|name|] == k[..d] == name;
      CompareEqual(p[..|name|], name);
    }
  }

  /** A list Get can search: valid pairs with keys strictly rising. */
  predicate Searchable(pairs: seq<Bytes>) {
    && (forall i :: 0 <= i < |pairs| ==> Good(pairs[i]))
    && forall i, j :: 0 <= i < j < |pairs| ==> Compare(Key(pairs[i]), Key(pairs[j])) < 0
  }

  /** What Get makes of a name: a value, nothing, or a slice out of range. */
  datatype Found = Value(v: Bytes) | Unset | OutOfRange

  /** The reference: a name with "=" reads into the value of the name before it. */
  function Lookup(list: seq<Bytes>, name: Bytes): Found {
    match LastValue(list, Head(name))
    case None => Unset
    case Some(v) =>
      if EQ !in name then Value(v)
      else if v == Tail(name) then OutOfRange
      else if StartsWith(v, Tail(name) + [EQ]) then Value(v[|Tail(name)| + 1..])
      else Unset
  }

  /** What Get makes of the pair it stops at. */
  function FoundIn(p: Bytes, name: Bytes): Found {
    if Against(p, name) != 0 then Unset else if |p| <= |name| then OutOfRange else Value(p[|name| + 1..])
  }

  lemma FoundIsLookup(p: Bytes, name: Bytes)
    requires Good(p) && Name(p) == Head(name)
    ensures FoundIn(p, name) == Lookup([p], name)
  {
    hide Compare, Sep, Against, LastValue;
    AgainstIsKey(p, name);
    OneValue(p, Head(name));
    NamedSplit(p);
    var n, v := Name(p), ValueOf(p);
    if EQ !in name {
      assert StartsWith(p, name + [EQ]) && p[|name| + 1..] == v;
    } else {
      var r := Tail(name);
      assert p == (n + [EQ]) + v && name == (n + [EQ]) + r;
      assert v == p[|n| + 1..] && r == name[|n| + 1..];
      assert p == name <==> v == r;
      assert name + [EQ] == (n + [EQ]) + (r + [EQ]);
      if StartsWith(v, r + [EQ]) { assert p[..|name| + 1] == (n + [EQ]) + v[..|r| + 1]; }
      if StartsWith(p, name + [EQ]) {
        assert v[..|r| + 1] == p[..|name| + 1][|n| + 1..] == (name + [EQ])[|n| + 1..] == r + [EQ];
      }
      if |p| > |name| { assert p[|name| + 1..] == v[|r| + 1..]; }
    }
  }

  lemma NamedSplit(p: Bytes)
    requires Good(p)
    ensures p == Name(p) + [EQ] + ValueOf(p)
  { }

  /** Where all pairs before i are before the name and the one at i is not, that one decides. */
  lemma SearchEnds(pairs: seq<Bytes>, name: Bytes, i: nat)
    requires Searchable(pairs) && i <= |pairs|
    requires forall k :: 0 <= k < i ==> Against(pairs[k], name) < 0
    requires i < |pairs| ==> Against(pairs[i], name) >= 0
    ensures Lookup(pairs, name) == if i < |pairs| then FoundIn(pairs[i], name) else Unset
  {
    hide Compare, LastValue, Against, Sep, FoundIn;
    if j: nat :| j < |pairs| && Name(pairs[j]) == Head(name) {
      OnlyValue(pairs, j);
      FoundIsLookup(pairs[j], name);
      OneValue(pairs[j], Head(name));
      NotFound(pairs[j], name);
      if i < j { Rising(pairs, i, j, name); }
      if i < |pairs| && i != j {
        if i < j { KeysDiffer(pairs, i, j); } else { KeysDiffer(pairs, j, i); }
        AgainstIsKey(pairs[i], name);
        NotFound(pairs[i], name);
      }
    } else {
      NoneNamed(pairs, Head(name));
      if i < |pairs| {
        AgainstIsKey(pairs[i], name);
        NotFound(pairs[i], name);
      }
    }
  }

  lemma NotFound(p: Bytes, name: Bytes)
    ensures Against(p, name) != 0 ==> FoundIn(p, name) == Unset
  { }

  /** Past a pair that is not before the name every pair is after it; up to one that is before it all are before. */
  lemma Rising(pairs: seq<Bytes>, i: nat, j: nat, name: Bytes)
    requires Searchable(pairs) && i < j < |pairs|
    ensures Against(pairs[i], name) >= 0 ==> Against(pairs[j], name) > 0
    ensures Against(pairs[j], name) <= 0 ==> Against(pairs[i], name) < 0
  {
    hide Compare, Against, Sep;
    var a, b, h := Key(pairs[i]), Key(pairs[j]), Head(name) + [EQ];
    AgainstIsKey(pairs[i], name);
    AgainstIsKey(pairs[j], name);
    CompareEqual(a, b);
    CompareSwap(a, h);
    CompareSwap(b, h);
    CompareSwap(a, b);
    if Compare(h, a) <= 0 { CompareTrans(h, a, b); }
    if Compare(b, h) <= 0 { CompareTrans(a, b, h); }
    HeadKey(pairs[i], name);
    HeadKey(pairs[j], name);
  }

  lemma HeadKey(p: Bytes, name: Bytes)
    requires Good(p)
    ensures Name(p) == Head(name) ==> Compare(Key(p), Head(name) + [EQ]) == 0
  {
    CompareEqual(Key(p), Head(name) + [EQ]);
  }

  /** In such a list a name has one pair or none. */
  lemma OnlyValue(pairs: seq<Bytes>, i: nat)
    requires Searchable(pairs) && i < |pairs|
    ensures LastValue(pairs, Name(pairs[i])) == Some(ValueOf(pairs[i]))
  {
    hide Compare, LastValue, Sep, Searchable, ValueOf;
    var name := GoodAt(pairs, i);
    NoneLater(pairs, i);
    OneValue(pairs[i], name);
    assert pairs == pairs[..i + 1] + pairs[i + 1..];
    LastValueAppend(pairs[..i + 1], pairs[i + 1..], name);
    assert pairs[..i + 1] == pairs[..i] + [pairs[i]];
    LastValueAppend(pairs[..i], [pairs[i]], name);
  }

  lemma GoodAt(pairs: seq<Bytes>, i: nat) returns (name: Bytes)
    requires Searchable(pairs) && i < |pairs|
    ensures Good(pairs[i]) && name == Name(pairs[i])
  {
    name := Name(pairs[i]);
  }

  lemma NoneLater(pairs: seq<Bytes>, i: nat)
    requires Searchable(pairs) && i < |pairs|
    ensures LastValue(pairs[i + 1..], Name(pairs[i])) == None
  {
    hide Compare, LastValue, Sep;
    forall j | i < j < |pairs| ensures Name(pairs[j]) != Name(pairs[i]) { KeysDiffer(pairs, i, j); }
    NoneNamed(pairs[i + 1..], Name(pairs[i]));
  }

  lemma KeysDiffer(pairs: seq<Bytes>, i: nat, j: nat)
    requires Searchable(pairs) && i < j < |pairs|
    ensures Name(pairs[i]) != Name(pairs[j])
  {
    CompareEqual(Key(pairs[i]), Key(pairs[j]));
  }

  lemma OneValue(p: Bytes, name: Bytes)
    ensures LastValue([p], name) == if Named(p, name) then Some(ValueOf(p)) else None
  {
    var list := [p];
    assert list[..0] == [];
  }

  lemma {:induction false} NoneNamed(list: seq<Bytes>, name: Bytes)
    requires forall p :: p in list && Good(p) ==> Name(p) != name
    ensures LastValue(list, name) == None
  {
    if list != [] { NoneNamed(list[..|list| - 1], name); }
  }

  /**
   * Get agrees with the rule for every list exactly at names without "=", or whose part after it neither is the value
   * of the part before nor goes on to a further "=" in it.
   */
  lemma LookupIff(list: seq<Bytes>, name: Bytes)
    ensures Lookup(list, name) == (match LastValue(list, name) case None => Unset case Some(v) => Value(v)) <==>
            (EQ in name && LastValue(list, Head(name)).Some? ==>
               var v := LastValue(list, Head(name)).value; v != Tail(name) && !StartsWith(v, Tail(name) + [EQ]))
  {
    hide LastValue, Sep;
    if EQ in name { NoSuchName(list, name); }
  }

  /** The failing inputs: "A=B" asked of the pair "A=B" slices out of range, and of the pair "A=B=C" it reads "C". */
  lemma NameReadsValue()
    ensures Lookup([[65, EQ, 66]], [65, EQ, 66]) == OutOfRange
    ensures Lookup([[65, EQ, 66, EQ, 67]], [65, EQ, 66]) == Value([67])
  {
    hide LastValue;
    var name, p, q: Bytes := [65, EQ, 66], [65, EQ, 66], [65, EQ, 66, EQ, 67];
    assert Sep(name) == Some(1) && Sep(q) == Some(1) by { assert name[1..][0] == EQ && q[1..][0] == EQ; }
    assert Head(name) == [65] && Tail(name) == [66];
    assert Name(p) == [65] && ValueOf(p) == [66];
    assert Name(q) == [65] && ValueOf(q) == [66, EQ, 67];
    OneValue(p, [65]);
    OneValue(q, [65]);
  }

  // ---------- the code ----------

  lemma BeforeTrans(p: Bytes, q: Bytes, r: Bytes)
    requires Before(p, q) && Before(q, r)
    ensures Before(p, r)
  {
    CompareTrans(Key(p), Key(q), Key(r));
  }

  lemma BeforeTotal(p: Bytes, q: Bytes)
    ensures Before(p, q) || Before(q, p)
    ensures Before(p, q) && Before(q, p) ==> Key(p) == Key(q)
  {
    CompareSwap(Key(p), Key(q));
    CompareEqual(Key(p), Key(q));
  }

  /** Put p after every pair that is not strictly behind it. */
  method InsertSorted(list: seq<Bytes>, p: Bytes) returns (r: seq<Bytes>)
    requires Sorted(list)
    ensures StablySorted(list + [p], r)
  {
    hide Compare, Key, WithKey, Before;
    var i := |list|;
    while i > 0 && !Before(list[i - 1], p)
      invariant 0 <= i <= |list|
      invariant forall j :: i <= j < |list| ==> !Before(list[j], p)
    {
      i := i - 1;
    }
    r := list[..i] + [p] + list[i..];
    InsertedSorted(list, p, i);
    forall key ensures WithKey(r, key) == WithKey(list + [p], key) {
      InsertedKeys(list, p, i, key);
    }
  }

  lemma InsertedSorted(list: seq<Bytes>, p: Bytes, i: nat)
    requires Sorted(list) && i <= |list| && (i > 0 ==> Before(list[i - 1], p))
    requires forall j :: i <= j < |list| ==> !Before(list[j], p)
    ensures Sorted(list[..i] + [p] + list[i..])
  {
    hide Before;
    var r := list[..i] + [p] + list[i..];
    forall j | 0 <= j < |list|
      ensures j < i ==> Before(list[j], p)
      ensures j >= i ==> Before(p, list[j])
    {
      if j < i - 1 { BeforeTrans(list[j], list[i - 1], p); }
      BeforeTotal(list[j], p);
    }
  }

  /** No pair of the same key is passed over. */
  lemma InsertedKeys(list: seq<Bytes>, p: Bytes, i: nat, key: Bytes)
    requires i <= |list| && forall j :: i <= j < |list| ==> !Before(list[j], p)
    ensures WithKey(list[..i] + [p] + list[i..], key) == WithKey(list + [p], key)
  {
    hide Before, WithKey, Compare, Key;
    var a, b := list[..i], list[i..];
    assert list == a + b;
    WithKeyAppend(a, b, key);
    WithKeyAppend(a + [p], b, key);
    WithKeyAppend(a, [p], key);
    WithKeyAppend(a + b, [p], key);
    if Key(p) == key { NoneWithKey(b, p); } else { OtherKey(p, key); }
    EmptySwaps(WithKey(a, key), WithKey([p], key), WithKey(b, key));
  }

  lemma OtherKey(p: Bytes, key: Bytes)
    requires Key(p) != key
    ensures WithKey([p], key) == []
  {
    hide Key;
    var list := [p];
    assert list[..0] == [];
  }

  lemma EmptySwaps(a: seq<Bytes>, b: seq<Bytes>, c: seq<Bytes>)
    requires b == [] || c == []
    ensures a + b + c == a + c + b
  { }

  lemma {:induction false} NoneWithKey(b: seq<Bytes>, p: Bytes)
    requires forall j :: 0 <= j < |b| ==> !Before(b[j], p)
    ensures WithKey(b, Key(p)) == []
  {
    if b != [] {
      NoneWithKey(b[..|b| - 1], p);
      CompareEqual(Key(b[|b| - 1]), Key(p));
    }
  }

  /** slices.SortStableFunc, by insertion */
  method SortStable(pairs: seq<Bytes>) returns (list: seq<Bytes>)
    ensures StablySorted(pairs, list)
  {
    hide WithKey, Before;
    list := [];
    var i := 0;
    while i < |pairs|
      invariant 0 <= i <= |pairs|
      invariant StablySorted(pairs[..i], list)
    {
      ghost var before := list;
      list := InsertSorted(list, pairs[i]);
      SortedMore(pairs, before, list, i);
      i := i + 1;
    }
    assert pairs[..i] == pairs;
  }

  lemma SortedMore(pairs: seq<Bytes>, before: seq<Bytes>, list: seq<Bytes>, i: nat)
    requires i < |pairs| && StablySorted(pairs[..i], before) && StablySorted(before + [pairs[i]], list)
    ensures StablySorted(pairs[..i + 1], list)
  {
    hide WithKey, Sorted;
    assert pairs[..i + 1] == pairs[..i] + [pairs[i]];
    forall key ensures WithKey(list, key) == WithKey(pairs[..i + 1], key) {
      WithKeyOne(pairs[..i], pairs[i], key);
      WithKeyOne(before, pairs[i], key);
    }
  }

  /**
   * Of the list being cleaned: the part already done is searchable, the whole is in order and has the same last
   * values.
   */
  ghost predicate Cleaning(sorted: seq<Bytes>, list: seq<Bytes>, i: nat, last: Bytes) {
    && i <= |list| && Sorted(list) && Searchable(list[..i])
    && (if i == 0 then last == [] else Good(list[i - 1]) && last == Name(list[i - 1]))
    && forall name :: LastValue(list, name) == LastValue(sorted, name)
  }

  function Without(list: seq<Bytes>, i: nat): seq<Bytes>
    requires i < |list|
  {
    list[..i] + list[i + 1..]
  }

  lemma SortedWithout(list: seq<Bytes>, i: nat)
    requires i < |list| && Sorted(list)
    ensures Sorted(Without(list, i))
  {
    hide Before;
    var r := Without(list, i);
    forall j | 0 <= j < |r| ensures r[j] == list[if j < i then j else j + 1] { }
  }

  /** Dropping an invalid pair, or one whose name comes again later, changes no last value. */
  lemma LastWithout(list: seq<Bytes>, i: nat, name: Bytes)
    requires i < |list|
    requires !Named(list[i], name) || LastValue(list[i + 1..], name).Some?
    ensures LastValue(Without(list, i), name) == LastValue(list, name)
  {
    hide LastValue, Named;
    var a, b := list[..i], list[i + 1..];
    assert list == a + ([list[i]] + b);
    LastValueAppend(a, [list[i]] + b, name);
    LastValueAppend([list[i]], b, name);
    LastValueAppend(a, b, name);
    OneValue(list[i], name);
  }

  lemma DropInvalid(sorted: seq<Bytes>, list: seq<Bytes>, i: nat, last: Bytes)
    requires Cleaning(sorted, list, i, last) && i < |list| && !Good(list[i])
    ensures Cleaning(sorted, Without(list, i), i, last)
  {
    hide LastValue, Sorted, Searchable;
    SortedWithout(list, i);
    forall name ensures LastValue(Without(list, i), name) == LastValue(sorted, name) { LastWithout(list, i, name); }
    assert Without(list, i)[..i] == list[..i];
  }

  lemma NextNamed(list: seq<Bytes>, i: nat)
    requires i < |list| && Good(list[i])
    ensures LastValue(list[i..], Name(list[i])).Some?
  {
    assert list[i..] == [list[i]] + list[i + 1..];
    LastValueAppend([list[i]], list[i + 1..], Name(list[i]));
    OneValue(list[i], Name(list[i]));
  }

  lemma DropEarlier(sorted: seq<Bytes>, list: seq<Bytes>, i: nat, last: Bytes)
    requires Cleaning(sorted, list, i, last) && 0 < i < |list| && Good(list[i]) && Name(list[i]) == last
    ensures Cleaning(sorted, Without(list, i - 1), i, last)
  {
    hide LastValue, Sorted, Searchable, Sep, Key;
    var r := Without(list, i - 1);
    SortedWithout(list, i - 1);
    NextNamed(list, i);
    forall name ensures LastValue(r, name) == LastValue(sorted, name) { LastWithout(list, i - 1, name); }
    assert r[..i] == list[..i - 1] + [list[i]];
    SameKey(list[..i], list[i]);
    assert list[..i][..i - 1] == list[..i - 1];
  }

  /** A pair may be exchanged for one of the same name. */
  lemma SameKey(a: seq<Bytes>, p: Bytes)
    requires a != [] && Searchable(a) && Good(p) && Name(a[|a| - 1]) == Name(p)
    ensures Searchable(a[..|a| - 1] + [p])
  {
    hide Compare, Sep;
    assert Key(p) == Key(a[|a| - 1]);
  }

  lemma Advance(sorted: seq<Bytes>, list: seq<Bytes>, i: nat, last: Bytes)
    requires Cleaning(sorted, list, i, last) && i < |list| && Good(list[i]) && Name(list[i]) != last
    ensures Cleaning(sorted, list, i + 1, Name(list[i]))
  {
    hide LastValue, Compare, Sep;
    var a, p := list[..i], list[i];
    assert list[..i + 1] == a + [p];
    forall j | 0 <= j < i ensures Compare(Key(a[j]), Key(p)) < 0 {
      CompareEqual(Key(list[i - 1]), Key(p));
      KeyNames(list[i - 1], Name(p));
      assert Before(list[i - 1], p);
      if j < i - 1 {
        assert Compare(Key(a[j]), Key(a[i - 1])) < 0;
        CompareTrans(Key(a[j]), Key(a[i - 1]), Key(p));
      }
    }
  }

  class ListEnv {
    const pairs: seq<Bytes>

    ghost predicate Valid() {
      Searchable(pairs)
    }

    /** listEnviron_: sort stably, then drop what is invalid and all but the last of each name. */
    constructor (given: seq<Bytes>)
      ensures Valid()
      ensures forall name :: LastValue(pairs, name) == LastValue(given, name)
    {
      hide Sorted, LastValue, Searchable, Cleaning;
      var list := SortStable(given);
      ghost var sorted := list;
      var last: Bytes := [];
      var i := 0;
      StartCleaning(list);
      while i < |list|
        invariant Cleaning(sorted, list, i, last)
        invariant 0 <= i <= |list|
        decreases |list| - i
      {
        if !Good(list[i]) {
          DropInvalid(sorted, list, i, last);
          list := Without(list, i);
        } else if Name(list[i]) == last {
          CleaningLast(sorted, list, i, last);
          DropEarlier(sorted, list, i, last);
          list := Without(list, i - 1);
        } else {
          Advance(sorted, list, i, last);
          last := Name(list[i]);
          i := i + 1;
        }
      }
      this.pairs := list;
      new;
      Cleaned(given, sorted, list, last);
    }

    /** Get: the value of the last pair given with the name. */
    method Get(name: Bytes) returns (f: Found)
      requires Valid()
      ensures f == Lookup(pairs, name)
    {
      hide Compare, Key, Against, Lookup, Searchable, FoundIn;
      var i, j := 0, |pairs|;
      while i < j
        invariant 0 <= i <= j <= |pairs|
        invariant forall k :: 0 <= k < i ==> Against(pairs[k], name) < 0
        invariant j < |pairs| ==> Against(pairs[j], name) >= 0
      {
        var h := (i + j) / 2;
        if Against(pairs[h], name) < 0 {
          forall k | 0 <= k < h ensures Against(pairs[k], name) < 0 { Rising(pairs, k, h, name); }
          i := h + 1;
        } else {
          j := h;
        }
      }
      SearchEnds(pairs, name, i);
      if i == |pairs| || Against(pairs[i], name) != 0 {
        if i < |pairs| { NotFound(pairs[i], name); }
        return Unset;
      }
      f := Slice(pairs[i], |name| + 1);
      SliceIs(pairs[i], name);
    }
  }

  /** A slice from a place on, which fails past the end. */
  function Slice(p: Bytes, from: nat): Found {
    if from <= |p| then Value(p[from..]) else OutOfRange
  }

  lemma SliceIs(p: Bytes, name: Bytes)
    requires Against(p, name) == 0
    ensures FoundIn(p, name) == Slice(p, |name| + 1)
  { }

  lemma StartCleaning(list: seq<Bytes>)
    requires Sorted(list)
    ensures Cleaning(list, list, 0, [])
  { }

  lemma CleaningLast(sorted: seq<Bytes>, list: seq<Bytes>, i: nat, last: Bytes)
    requires Cleaning(sorted, list, i, last) && i < |list| && Good(list[i]) && Name(list[i]) == last
    ensures i > 0
  { }

  lemma Cleaned(given: seq<Bytes>, sorted: seq<Bytes>, list: seq<Bytes>, last: Bytes)
    requires StablySorted(given, sorted) && Cleaning(sorted, list, |list|, last)
    ensures Searchable(list) && forall name :: LastValue(list, name) == LastValue(given, name)
  {
    hide LastValue, StablySorted, Searchable;
    assert list[..|list|] == list;
    forall name ensures LastValue(list, name) == LastValue(given, name) { SortKeepsLast(given, sorted, name); }
  }
}
