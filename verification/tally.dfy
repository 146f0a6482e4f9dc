/**
 * Counting values in a plain JavaScript object used as a dictionary
 * (`counts[v] = (counts[v] || 0) + 1`) and listing it with `Object.entries`.
 */
module Tally {
  import opened JsText

  /** One own property of the counts object: a key and its count. */
  datatype Count = Count(key: string, n: nat)

  /** The keys of a count list, in order. */
  function Keys(t: seq<Count>): (r: seq<string>)
    ensures |r| == |t| && forall i :: 0 <= i < |t| ==> r[i] == t[i].key
  {
    seq(|t|, i requires 0 <= i < |t| => t[i].key)
  }

  predicate DistinctKeys(t: seq<Count>)
  {
    forall i, j :: 0 <= i < j < |t| ==> t[i].key != t[j].key
  }

  predicate AllPositive(t: seq<Count>)
  {
    forall i :: 0 <= i < |t| ==> t[i].n >= 1
  }

  /** Sum of the counts. */
  function Total(t: seq<Count>): nat
  {
    if |t| == 0 then 0 else t[0].n + Total(t[1..])
  }

  /** The count recorded for `j`: the first property with that key, 0 when there is none. */
  function CountOf(t: seq<Count>, j: string): nat
  {
    if |t| == 0 then 0 else if t[0].key == j then t[0].n else CountOf(t[1..], j)
  }

  /**
   * Counting one more occurrence of `k`: an existing property is incremented
   * in place, a new one is appended with count 1.
   */
  function Bump(t: seq<Count>, k: string): seq<Count>
  {
    if |t| == 0 then [Count(k, 1)]
    else if t[0].key == k then [Count(k, t[0].n + 1)] + t[1..]
    else [t[0]] + Bump(t[1..], k)
  }

  /** Bumping keeps the keys in place and appends a key it has not seen. */
  lemma {:induction false} BumpKeys(t: seq<Count>, k: string)
    ensures k in Keys(t) ==> Keys(Bump(t, k)) == Keys(t)
    ensures k !in Keys(t) ==> Keys(Bump(t, k)) == Keys(t) + [k]
  {
    if |t| > 0 {
      assert t == [t[0]] + t[1..];
      KeysCons(t[0], t[1..]);
      if t[0].key == k {
        KeysCons(Count(k, t[0].n + 1), t[1..]);
      } else {
        BumpKeys(t[1..], k);
        KeysCons(t[0], Bump(t[1..], k));
      }
    }
  }

  /** The keys of a list with one count in front. */
  lemma KeysCons(c: Count, u: seq<Count>)
    ensures Keys([c] + u) == [c.key] + Keys(u)
  {
  }

  /** Bumping adds exactly one to the total. */
  lemma {:induction false} BumpTotal(t: seq<Count>, k: string)
    ensures Total(Bump(t, k)) == Total(t) + 1
  {
    if |t| > 0 && t[0].key != k {
      BumpTotal(t[1..], k);
      assert Bump(t, k)[1..] == Bump(t[1..], k);
    } else if |t| > 0 {
      assert Bump(t, k)[1..] == t[1..];
    }
  }

  /** Bumping adds one to the count of `k` and leaves every other count alone. */
  lemma {:induction false} BumpCount(t: seq<Count>, k: string, j: string)
    ensures CountOf(Bump(t, k), j) == CountOf(t, j) + (if j == k then 1 else 0)
  {
    if |t| > 0 && t[0].key != k {
      BumpCount(t[1..], k, j);
      assert Bump(t, k)[1..] == Bump(t[1..], k);
    } else if |t| > 0 {
      assert Bump(t, k)[1..] == t[1..];
    }
  }

  /** Bumping keeps the keys distinct and the counts positive. */
  lemma BumpShape(t: seq<Count>, k: string)
    requires DistinctKeys(t) && AllPositive(t)
    ensures DistinctKeys(Bump(t, k)) && AllPositive(Bump(t, k))
  {
    var r := Bump(t, k);
    BumpKeys(t, k);
    var kt, kr := Keys(t), Keys(r);
    assert forall i :: 0 <= i < |t| ==> kt[i] == t[i].key;
    assert forall i :: 0 <= i < |r| ==> kr[i] == r[i].key;
    BumpPositive(t, k);
  }

  lemma {:induction false} BumpPositive(t: seq<Count>, k: string)
    requires AllPositive(t)
    ensures AllPositive(Bump(t, k))
  {
    if |t| > 0 && t[0].key != k {
      BumpPositive(t[1..], k);
      assert Bump(t, k)[1..] == Bump(t[1..], k);
    }
  }

  /** With distinct keys, each property's count is the count recorded for its key. */
  lemma {:induction false} CountOfAt(t: seq<Count>, i: nat)
    requires DistinctKeys(t) && i < |t|
    ensures CountOf(t, t[i].key) == t[i].n
  {
    if i > 0 {
      CountOfAt(t[1..], i - 1);
    }
  }

  /** The counts object after counting every value of `vs`, in order. */
  function CountAll(vs: seq<string>): (r: seq<Count>)
    ensures DistinctKeys(r) && AllPositive(r)
  {
    if |vs| == 0 then []
    else
      var front := vs[..|vs| - 1];
      var t := CountAll(front);
      BumpShape(t, vs[|vs| - 1]);
      Bump(t, vs[|vs| - 1])
  }

  /** The number of occurrences of `j` among the values. */
  function Occurrences(vs: seq<string>, j: string): nat
  {
    if |vs| == 0 then 0
    else Occurrences(vs[..|vs| - 1], j) + (if vs[|vs| - 1] == j then 1 else 0)
  }

  /** Every value is counted once: the count recorded for a key is its number of occurrences. */
  lemma {:induction false} CountMultiplicity(vs: seq<string>, j: string)
    ensures CountOf(CountAll(vs), j) == Occurrences(vs, j)
  {
    if |vs| > 0 {
      var front := vs[..|vs| - 1];
      var y := vs[|vs| - 1];
      CountMultiplicity(front, j);
      BumpCount(CountAll(front), y, j);
    }
  }

  /** Exactly the values become keys. */
  lemma {:induction false} CountKeys(vs: seq<string>)
    ensures forall x :: x in Keys(CountAll(vs)) <==> x in vs
  {
    if |vs| > 0 {
      var front := vs[..|vs| - 1];
      var y := vs[|vs| - 1];
      CountKeys(front);
      assert vs == front + [y];
      assert CountAll(vs) == Bump(CountAll(front), y);
      BumpKeys(CountAll(front), y);
      assert forall x :: x in vs <==> x in front || x == y;
    }
  }

  /** The counts add up to the number of values. */
  lemma {:induction false} CountTotal(vs: seq<string>)
    ensures Total(CountAll(vs)) == |vs|
  {
    if |vs| > 0 {
      var front := vs[..|vs| - 1];
      CountTotal(front);
      BumpTotal(CountAll(front), vs[|vs| - 1]);
    }
  }

  /** Each property's count is the number of times its key occurs among the values. */
  lemma CountEntries(vs: seq<string>)
    ensures forall i :: 0 <= i < |CountAll(vs)| ==> CountAll(vs)[i].n == Occurrences(vs, CountAll(vs)[i].key)
  {
    var t := CountAll(vs);
    forall i | 0 <= i < |t|
      ensures t[i].n == Occurrences(vs, t[i].key)
    {
      CountOfAt(t, i);
      CountMultiplicity(vs, t[i].key);
    }
  }

  /** Index of the first occurrence of `x` in `vs`. */
  function FirstIndex(vs: seq<string>, x: string): (r: nat)
    requires x in vs
    ensures r < |vs| && vs[r] == x
    ensures forall k :: 0 <= k < r ==> vs[k] != x
  {
    if vs[0] == x then 0 else 1 + FirstIndex(vs[1..], x)
  }

  /** A value already seen in a prefix keeps its first index when more values follow. */
  lemma FirstIndexPrefix(front: seq<string>, y: string, x: string)
    requires x in front
    ensures x in front + [y] && FirstIndex(front + [y], x) == FirstIndex(front, x)
  {
    var i, j := FirstIndex(front + [y], x), FirstIndex(front, x);
    assert (front + [y])[j] == x;
    assert i <= j;
    assert front[i] == (front + [y])[i];
  }

  /** Properties appear in the order their keys were first seen among the values. */
  lemma {:induction false} CountFirstSeenOrder(vs: seq<string>)
    ensures forall i, j :: 0 <= i < j < |CountAll(vs)| ==>
              CountAll(vs)[i].key in vs && CountAll(vs)[j].key in vs &&
              FirstIndex(vs, CountAll(vs)[i].key) < FirstIndex(vs, CountAll(vs)[j].key)
  {
    if |vs| == 0 {
      assert CountAll(vs) == [];
    } else {
      var front := vs[..|vs| - 1];
      var y := vs[|vs| - 1];
      assert vs == front + [y];
      CountFirstSeenOrder(front);
      CountKeys(front);
      var t, r := CountAll(front), CountAll(vs);
      BumpKeys(t, y);
      var kt, kr := Keys(t), Keys(r);
      forall i, j | 0 <= i < j < |r|
        ensures r[i].key in vs && r[j].key in vs && FirstIndex(vs, r[i].key) < FirstIndex(vs, r[j].key)
      {
        assert kr[i] == r[i].key && kr[j] == r[j].key;
        assert r[i].key in kr && r[j].key in kr;
        assert i < |t|;
        assert kt[i] == t[i].key && r[i].key == t[i].key;
        assert t[i].key in kt;
        FirstIndexPrefix(front, y, r[i].key);
        if j < |t| {
          assert kt[j] == t[j].key && r[j].key == t[j].key;
          assert t[j].key in kt;
          FirstIndexPrefix(front, y, r[j].key);
        } else {
          assert r[j].key == y && y !in front;
          assert FirstIndex(vs, y) == |vs| - 1;
        }
      }
    }
  }

  /** The properties whose keys are array indices, in their current order. */
  function IndexEntries(t: seq<Count>): (r: seq<Count>)
    ensures forall i :: 0 <= i < |r| ==> IsArrayIndex(r[i].key)
  {
    if |t| == 0 then []
    else
      var rest := IndexEntries(t[1..]);
      assert forall i :: 1 <= i < |t| ==> t[1..][i - 1] == t[i];
      if IsArrayIndex(t[0].key) then [t[0]] + rest else rest
  }

  /** The properties whose keys are not array indices, in their current order. */
  function NamedEntries(t: seq<Count>): (r: seq<Count>)
    ensures forall i :: 0 <= i < |r| ==> !IsArrayIndex(r[i].key)
  {
    if |t| == 0 then []
    else
      var rest := NamedEntries(t[1..]);
      assert forall i :: 1 <= i < |t| ==> t[1..][i - 1] == t[i];
      if !IsArrayIndex(t[0].key) then [t[0]] + rest else rest
  }

  /** Splitting by key kind loses no count. */
  lemma {:induction false} SplitTotal(t: seq<Count>)
    ensures Total(IndexEntries(t)) + Total(NamedEntries(t)) == Total(t)
  {
    if |t| > 0 {
      SplitTotal(t[1..]);
    }
  }

  /** Splitting by key kind loses no property. */
  lemma {:induction false} SplitMultiset(t: seq<Count>)
    ensures multiset(IndexEntries(t)) + multiset(NamedEntries(t)) == multiset(t)
  {
    if |t| > 0 {
      SplitMultiset(t[1..]);
      assert t == [t[0]] + t[1..];
    }
  }

  /** Ascending by the numeric value of the (array-index) keys. */
  predicate SortedByIndex(t: seq<Count>)
  {
    forall i, j :: 0 <= i < j < |t| ==> IndexValue(t[i].key) <= IndexValue(t[j].key)
  }

  /** Inserts a property into a list sorted by index value, before the first larger one. */
  function InsertByIndex(x: Count, t: seq<Count>): (r: seq<Count>)
    ensures multiset(r) == multiset(t) + multiset{x}
  {
    if |t| == 0 then [x]
    else if IndexValue(x.key) <= IndexValue(t[0].key) then [x] + t
    else
      assert t == [t[0]] + t[1..];
      [t[0]] + InsertByIndex(x, t[1..])
  }

  lemma {:induction false} InsertTotal(x: Count, t: seq<Count>)
    ensures Total(InsertByIndex(x, t)) == Total(t) + x.n
  {
    if |t| > 0 && IndexValue(x.key) > IndexValue(t[0].key) {
      InsertTotal(x, t[1..]);
      assert InsertByIndex(x, t)[1..] == InsertByIndex(x, t[1..]);
    } else if |t| > 0 {
      assert InsertByIndex(x, t)[1..] == t;
    }
  }

  /** Inserting a property no smaller than a bound into a list no smaller than it keeps the bound. */
  lemma {:induction false} InsertAbove(x: Count, t: seq<Count>, v: int)
    requires v <= IndexValue(x.key)
    requires forall k :: 0 <= k < |t| ==> v <= IndexValue(t[k].key)
    ensures forall k :: 0 <= k < |InsertByIndex(x, t)| ==> v <= IndexValue(InsertByIndex(x, t)[k].key)
  {
    if |t| > 0 && IndexValue(x.key) > IndexValue(t[0].key) {
      InsertAbove(x, t[1..], v);
      var r := InsertByIndex(x, t);
      assert r[1..] == InsertByIndex(x, t[1..]);
    }
  }

  lemma {:induction false} InsertSorted(x: Count, t: seq<Count>)
    requires SortedByIndex(t)
    ensures SortedByIndex(InsertByIndex(x, t))
  {
    if |t| > 0 && IndexValue(x.key) > IndexValue(t[0].key) {
      InsertSorted(x, t[1..]);
      InsertAbove(x, t[1..], IndexValue(t[0].key));
      var rest := InsertByIndex(x, t[1..]);
      var r := InsertByIndex(x, t);
      assert r[0] == t[0] && r[1..] == rest;
      forall i, j | 0 <= i < j < |r|
        ensures IndexValue(r[i].key) <= IndexValue(r[j].key)
      {
        assert r[j] == rest[j - 1];
        if i > 0 {
          assert r[i] == rest[i - 1];
        }
      }
    }
  }

  /** Insertion sort by index value. */
  function SortByIndex(t: seq<Count>): (r: seq<Count>)
    ensures SortedByIndex(r)
    ensures multiset(r) == multiset(t)
    ensures Total(r) == Total(t)
  {
    if |t| == 0 then []
    else
      var rest := SortByIndex(t[1..]);
      assert t == [t[0]] + t[1..];
      InsertTotal(t[0], rest);
      InsertSorted(t[0], rest);
      InsertByIndex(t[0], rest)
  }

  /**
   * `Object.entries` of the counts object: properties with array-index keys
   * first, ascending by value, then the other properties in the order they
   * were created.
   */
  function Entries(t: seq<Count>): (r: seq<Count>)
    ensures multiset(r) == multiset(t)
  {
    SplitMultiset(t);
    SortByIndex(IndexEntries(t)) + NamedEntries(t)
  }

  /** Every property appears somewhere in the listing. */
  lemma EntriesListEvery(t: seq<Count>, m: nat)
    requires m < |t|
    ensures exists i :: 0 <= i < |Entries(t)| && Entries(t)[i] == t[m]
  {
    assert t[m] in multiset(t);
    assert t[m] in Entries(t);
  }

  /** Every counted value is listed. */
  lemma CountedIsListed(vs: seq<string>, v: string)
    requires v in vs
    ensures exists i :: 0 <= i < |Entries(CountAll(vs))| && Entries(CountAll(vs))[i].key == v
  {
    var t := CountAll(vs);
    CountKeys(vs);
    assert v in Keys(t);
    var m :| 0 <= m < |t| && Keys(t)[m] == v;
    EntriesListEvery(t, m);
  }

  /** Listing loses no count. */
  lemma EntriesTotal(t: seq<Count>)
    ensures Total(Entries(t)) == Total(t)
  {
    SplitTotal(t);
    TotalAppend(SortByIndex(IndexEntries(t)), NamedEntries(t));
  }

  /** Filtering distributes over concatenation. */
  lemma {:induction false} NamedAppend(a: seq<Count>, b: seq<Count>)
    ensures NamedEntries(a + b) == NamedEntries(a) + NamedEntries(b)
  {
    if |a| == 0 {
      assert a + b == b;
    } else {
      var ab := a + b;
      assert ab[0] == a[0] && ab[1..] == a[1..] + b;
      NamedAppend(a[1..], b);
      NamedCons(ab);
      NamedCons(a);
    }
  }

  /** One step of the filter. */
  lemma NamedCons(t: seq<Count>)
    requires |t| > 0
    ensures NamedEntries(t) == (if IsArrayIndex(t[0].key) then [] else [t[0]]) + NamedEntries(t[1..])
  {
  }

  /** Filtering a list of only named properties keeps it whole; of only index properties, empties it. */
  lemma {:induction false} NamedOfUniform(t: seq<Count>)
    ensures (forall i :: 0 <= i < |t| ==> !IsArrayIndex(t[i].key)) ==> NamedEntries(t) == t
    ensures (forall i :: 0 <= i < |t| ==> IsArrayIndex(t[i].key)) ==> NamedEntries(t) == []
  {
    if |t| > 0 {
      NamedOfUniform(t[1..]);
      assert t == [t[0]] + t[1..];
    }
  }

  /** The sorted index part holds only array-index keys. */
  lemma SortedIndexKeys(t: seq<Count>)
    ensures forall i :: 0 <= i < |SortByIndex(IndexEntries(t))| ==> IsArrayIndex(SortByIndex(IndexEntries(t))[i].key)
  {
    var idx := SortByIndex(IndexEntries(t));
    forall i | 0 <= i < |idx|
      ensures IsArrayIndex(idx[i].key)
    {
      assert idx[i] in multiset(IndexEntries(t));
    }
  }

  /**
   * The order `Object.entries` lists: no array-index key after another key,
   * array-index keys ascending, and the other keys in their original
   * relative order.
   */
  lemma EntriesOrder(t: seq<Count>)
    ensures forall i, j :: 0 <= i < j < |Entries(t)| && !IsArrayIndex(Entries(t)[i].key) ==> !IsArrayIndex(Entries(t)[j].key)
    ensures forall i, j :: 0 <= i < j < |Entries(t)| && IsArrayIndex(Entries(t)[j].key) ==>
              IndexValue(Entries(t)[i].key) <= IndexValue(Entries(t)[j].key)
    ensures NamedEntries(Entries(t)) == NamedEntries(t)
  {
    var idx := SortByIndex(IndexEntries(t));
    var named := NamedEntries(t);
    var r := idx + named;
    assert r == Entries(t);
    SortedIndexKeys(t);
    EntriesSplitOrder(idx, named);
    NamedAppend(idx, named);
    NamedOfUniform(idx);
    NamedOfUniform(named);
  }

  /** Sorted index keys followed by other keys list in `Object.entries` order. */
  lemma EntriesSplitOrder(idx: seq<Count>, named: seq<Count>)
    requires SortedByIndex(idx)
    requires forall i :: 0 <= i < |idx| ==> IsArrayIndex(idx[i].key)
    requires forall i :: 0 <= i < |named| ==> !IsArrayIndex(named[i].key)
    ensures forall i, j :: 0 <= i < j < |idx + named| && !IsArrayIndex((idx + named)[i].key) ==> !IsArrayIndex((idx + named)[j].key)
    ensures forall i, j :: 0 <= i < j < |idx + named| && IsArrayIndex((idx + named)[j].key) ==>
              IndexValue((idx + named)[i].key) <= IndexValue((idx + named)[j].key)
  {
    var r := idx + named;
    forall i | 0 <= i < |r|
      ensures IsArrayIndex(r[i].key) <==> i < |idx|
    {
      if i >= |idx| {
        assert r[i] == named[i - |idx|];
      }
    }
    forall i, j | 0 <= i < j < |r| && IsArrayIndex(r[j].key)
      ensures IndexValue(r[i].key) <= IndexValue(r[j].key)
    {
      assert r[i] == idx[i] && r[j] == idx[j];
    }
  }

  lemma {:induction false} TotalAppend(a: seq<Count>, b: seq<Count>)
    ensures Total(a + b) == Total(a) + Total(b)
  {
    if |a| == 0 {
      assert a + b == b;
    } else {
      TotalAppend(a[1..], b);
      assert (a + b)[1..] == a[1..] + b;
    }
  }

  /** Listing keeps every count positive. */
  lemma EntriesPositive(t: seq<Count>)
    requires AllPositive(t)
    ensures AllPositive(Entries(t))
  {
    var r := Entries(t);
    forall i | 0 <= i < |r|
      ensures r[i].n >= 1
    {
      assert r[i] in multiset(r);
    }
  }

  // ----- The counts object as the page actually builds it -----
  //
  // The page starts from `{}`, which inherits from Object.prototype. Reading
  // `counts[v]` for a key the object does not own finds the inherited member
  // when `v` names one, so the first count of such a key is the member's
  // source text with "1" appended (a function plus 1 concatenates), and later
  // counts append further "1"s. Assigning to `__proto__` with a string is
  // ignored, so that key never becomes a property at all.

  /** The function-valued members every plain object inherits from Object.prototype. */
  const InheritedMethods: set<string> := {
    "constructor", "hasOwnProperty", "isPrototypeOf", "propertyIsEnumerable",
    "toLocaleString", "toString", "valueOf",
    "__defineGetter__", "__defineSetter__", "__lookupGetter__", "__lookupSetter__"
  }

  /** How `String(fn)` renders an inherited built-in function, as V8 (Chromium, Node.js) renders it; other engines lay the text out differently. */
  function NativeSource(name: string): string
  {
    if name == "constructor" then "function Object() { [native code] }"
    else "function " + name + "() { [native code] }"
  }

  /** A property value of the counts object: a number, or the string the `+ 1` produced. */
  datatype JsCount = Num(n: nat) | Concat(s: string)

  /** One own property of the counts object as built. */
  datatype OwnProperty = OwnProperty(key: string, value: JsCount)

  /** `value + 1` in JavaScript for the two kinds of value that arise. */
  function PlusOne(v: JsCount): JsCount
  {
    match v
    case Num(n) => Num(n + 1)
    case Concat(s) => Concat(s + "1")
  }

  /** One `counts[k] = (counts[k] || 0) + 1` step on the object as built. */
  function BumpAsWritten(t: seq<OwnProperty>, k: string): (r: seq<OwnProperty>)
    ensures k == ProtoKey ==> r == t
    ensures k != ProtoKey ==> |t| <= |r| <= |t| + 1
  {
    if k == ProtoKey then t
    else if |t| == 0 then
      [OwnProperty(k, if k in InheritedMethods then Concat(NativeSource(k) + "1") else Num(1))]
    else if t[0].key == k then [OwnProperty(k, PlusOne(t[0].value))] + t[1..]
    else [t[0]] + BumpAsWritten(t[1..], k)
  }

  /** The counts object as the page builds it from the values, in order. */
  function CountAllAsWritten(vs: seq<string>): seq<OwnProperty>
  {
    if |vs| == 0 then []
    else BumpAsWritten(CountAllAsWritten(vs[..|vs| - 1]), vs[|vs| - 1])
  }

  /** The intended counts viewed as object properties holding numbers. */
  function AsProperties(t: seq<Count>): (r: seq<OwnProperty>)
    ensures |r| == |t|
    ensures forall i :: 0 <= i < |t| ==> r[i] == OwnProperty(t[i].key, Num(t[i].n))
  {
    seq(|t|, i requires 0 <= i < |t| => OwnProperty(t[i].key, Num(t[i].n)))
  }

  /** A value that does not name an Object.prototype member. */
  predicate PlainKey(k: string)
  {
    k != ProtoKey && k !in InheritedMethods
  }

  lemma {:induction false} BumpAgrees(t: seq<Count>, k: string)
    requires PlainKey(k)
    ensures BumpAsWritten(AsProperties(t), k) == AsProperties(Bump(t, k))
  {
    if |t| > 0 && t[0].key != k {
      BumpAgrees(t[1..], k);
      assert AsProperties(t)[1..] == AsProperties(t[1..]);
    } else if |t| > 0 {
      assert AsProperties(t)[1..] == AsProperties(t[1..]);
    }
  }

  /** When no value names an Object.prototype member, the page's object holds exactly the intended counts. */
  lemma {:induction false} AsWrittenAgreesOnPlainKeys(vs: seq<string>)
    requires forall i :: 0 <= i < |vs| ==> PlainKey(vs[i])
    ensures CountAllAsWritten(vs) == AsProperties(CountAll(vs))
  {
    if |vs| > 0 {
      var front := vs[..|vs| - 1];
      AsWrittenAgreesOnPlainKeys(front);
      BumpAgrees(CountAll(front), vs[|vs| - 1]);
    }
  }

  /** An answer "__proto__" is counted in the denominator but produces no property at all. */
  lemma ProtoAnswerVanishes()
    ensures CountAllAsWritten([ProtoKey]) == []
    ensures CountAll([ProtoKey]) == [Count(ProtoKey, 1)]
  {
  }

  /** An answer "constructor" is given a string instead of the count 1; the exact text is the V8 rendering of `Object`. */
  lemma ConstructorAnswerGarbled()
    ensures CountAllAsWritten(["constructor"]) ==
              [OwnProperty("constructor", Concat("function Object() { [native code] }1"))]
    ensures CountAll(["constructor"]) == [Count("constructor", 1)]
  {
    var vs := ["constructor"];
    assert vs[..0] == [];
    assert "constructor" in InheritedMethods && "constructor" != ProtoKey;
    assert CountAllAsWritten(vs) == BumpAsWritten([], "constructor");
    assert NativeSource("constructor") + "1" == "function Object() { [native code] }1";
  }
}
