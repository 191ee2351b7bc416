/**
 * The LINQ helper extensions of Composite.Core.Linq: a content hash over a
 * dictionary's entries, collection evaluation, the Single/First variants that
 * throw a caller-chosen message, and the order-preserving list conversions.
 *
 * An `IQueryable<T>` is represented by the sequence of rows it yields; an
 * `IDictionary` by the sequence of entries its enumerator visits.
 */
module LinqExtensions {
  import opened Wrappers

  /** The exceptions these helpers throw. `string.Format` itself is not modelled:
      the format string and its arguments are carried as they were given. */
  datatype Error =
    | InvalidOperation(format: string, args: seq<string>)
    | NullReference

  // ---------------------------------------------------------------------------
  // DictionaryExtensions.GetContentHashCode
  // ---------------------------------------------------------------------------

  /** A dictionary entry: a key (never null in an `IDictionary`) and a value that may be null. */
  type Entry<K, V> = (K, Option<V>)

  predicate NoNullValues<K, V>(entries: seq<Entry<K, V>>)
  {
    forall i :: 0 <= i < |entries| ==> entries[i].1.Some?
  }

  /** The contribution of one entry: key hash XOR value hash (32-bit, as .NET `int`). */
  function EntryHash<K, V>(e: Entry<K, V>, keyHash: K -> bv32, valueHash: V -> bv32): bv32
    requires e.1.Some?
  {
    keyHash(e.0) ^ valueHash(e.1.value)
  }

  /** The XOR of the contributions of all entries, accumulated in enumeration order. */
  function XorOfEntries<K, V>(entries: seq<Entry<K, V>>, keyHash: K -> bv32, valueHash: V -> bv32): bv32
    requires NoNullValues(entries)
  {
    if entries == [] then 0
    else XorOfEntries(entries[..|entries| - 1], keyHash, valueHash) ^ EntryHash(entries[|entries| - 1], keyHash, valueHash)
  }

  /** GetContentHashCode: folds `hash ^ key.GetHashCode() ^ value.GetHashCode()` over the
      entries; a null value makes `Value.GetHashCode()` throw. */
  method GetContentHashCode<K, V>(entries: seq<Entry<K, V>>, keyHash: K -> bv32, valueHash: V -> bv32)
    returns (r: Result<bv32, Error>)
    ensures r.Success? <==> NoNullValues(entries)
    ensures r.Success? ==> r.value == XorOfEntries(entries, keyHash, valueHash)
    ensures r.Failure? ==> r.error == NullReference
    ensures entries == [] ==> r == Success(0)
  {
    var hash: bv32 := 0;
    for i := 0 to |entries|
      invariant NoNullValues(entries[..i])
      invariant hash == XorOfEntries(entries[..i], keyHash, valueHash)
    {
      var (key, value) := entries[i];
      if value.None? {
        return Failure(NullReference);
      }
      hash := hash ^ keyHash(key) ^ valueHash(value.value);
      assert entries[..i + 1][..i] == entries[..i];
    }
    assert entries[..|entries|] == entries;
    return Success(hash);
  }

  /** The hash of a concatenation is the XOR of the hashes of its parts. */
  lemma {:induction false} XorOfEntriesAppend<K, V>(s: seq<Entry<K, V>>, t: seq<Entry<K, V>>, keyHash: K -> bv32, valueHash: V -> bv32)
    requires NoNullValues(s) && NoNullValues(t)
    ensures NoNullValues(s + t)
    ensures XorOfEntries(s + t, keyHash, valueHash) == XorOfEntries(s, keyHash, valueHash) ^ XorOfEntries(t, keyHash, valueHash)
    decreases |t|
  {
    assert NoNullValues(s + t) by {
      forall i | 0 <= i < |s + t| ensures (s + t)[i].1.Some? {
        if i < |s| { assert (s + t)[i] == s[i]; } else { assert (s + t)[i] == t[i - |s|]; }
      }
    }
    if t == [] {
      assert s + t == s;
    } else {
      var t' := t[..|t| - 1];
      assert NoNullValues(t');
      XorOfEntriesAppend(s, t', keyHash, valueHash);
      assert (s + t)[..|s + t| - 1] == s + t';
    }
  }

  /** Taking one entry out of the enumeration XORs its contribution away. */
  lemma {:induction false} XorOfEntriesRemove<K, V>(s: seq<Entry<K, V>>, j: nat, keyHash: K -> bv32, valueHash: V -> bv32)
    requires NoNullValues(s) && j < |s|
    ensures NoNullValues(s[..j] + s[j + 1..])
    ensures XorOfEntries(s, keyHash, valueHash) == EntryHash(s[j], keyHash, valueHash) ^ XorOfEntries(s[..j] + s[j + 1..], keyHash, valueHash)
  {
    var a, b, x := s[..j], s[j + 1..], s[j];
    assert s == (a + [x]) + b;
    assert NoNullValues(a) && NoNullValues(b) && NoNullValues([x]);
    var h := EntryHash(x, keyHash, valueHash);
    var ha, hb := XorOfEntries(a, keyHash, valueHash), XorOfEntries(b, keyHash, valueHash);
    XorOfEntriesAppend(a, [x], keyHash, valueHash);
    XorOfEntriesAppend(a + [x], b, keyHash, valueHash);
    XorOfEntriesAppend(a, b, keyHash, valueHash);
    XorOfSingleton(x, keyHash, valueHash);
    XorSwap(ha, h, hb);
  }

  lemma XorOfSingleton<K, V>(x: Entry<K, V>, keyHash: K -> bv32, valueHash: V -> bv32)
    requires x.1.Some?
    ensures NoNullValues([x])
    ensures XorOfEntries([x], keyHash, valueHash) == EntryHash(x, keyHash, valueHash)
  {
    assert [x][..0] == [];
  }

  lemma XorSwap(p: bv32, q: bv32, r: bv32)
    ensures (p ^ q) ^ r == q ^ (p ^ r)
  {
  }

  /** The content hash does not depend on the enumeration order: any two enumerations
      of the same entries give the same hash. */
  lemma {:induction false} ContentHashOrderIndependent<K, V>(s: seq<Entry<K, V>>, t: seq<Entry<K, V>>, keyHash: K -> bv32, valueHash: V -> bv32)
    requires NoNullValues(s) && multiset(s) == multiset(t)
    ensures NoNullValues(t)
    ensures XorOfEntries(s, keyHash, valueHash) == XorOfEntries(t, keyHash, valueHash)
    decreases |s|
  {
    assert NoNullValues(t) by {
      forall i | 0 <= i < |t| ensures t[i].1.Some? {
        assert t[i] in multiset(s);
      }
    }
    if s == [] {
      assert |t| == |multiset(t)| == 0;
    } else {
      var n := |s| - 1;
      var last := s[n];
      assert last in multiset(t);
      var j :| 0 <= j < |t| && t[j] == last;
      var s', t' := s[..n], t[..j] + t[j + 1..];
      assert s == s' + [last];
      assert t == t[..j] + [t[j]] + t[j + 1..];
      assert multiset(s) == multiset(s') + multiset{last};
      assert multiset(t) == multiset(t[..j]) + multiset{t[j]} + multiset(t[j + 1..]);
      assert multiset(t') == multiset(t[..j]) + multiset(t[j + 1..]);
      assert multiset(s') == multiset(s) - multiset{last};
      assert multiset(t') == multiset(t) - multiset{last};
      assert NoNullValues(s');
      ContentHashOrderIndependent(s', t', keyHash, valueHash);
      XorOfEntriesRemove(t, j, keyHash, valueHash);
    }
  }

  // ---------------------------------------------------------------------------
  // IEnumerableExtensions.Evaluate / EvaluateOrNull
  // ---------------------------------------------------------------------------

  /** How an `IEnumerable<T>` is backed: an array, a `List<T>`, or anything else
      (a query or iterator, evaluated on each enumeration). */
  datatype Enumerable<T> = Array(items: seq<T>) | List(items: seq<T>) | Deferred(items: seq<T>)
  {
    predicate IsMaterialized() { Array? || List? }
  }

  /** Evaluate: an array or list is returned as it is; anything else is copied into a new list. */
  function Evaluate<T>(e: Enumerable<T>): (r: Enumerable<T>)
    ensures r.items == e.items
    ensures r.IsMaterialized()
    ensures e.IsMaterialized() ==> r == e
    ensures !e.IsMaterialized() ==> r.List?
  {
    if e.Array? || e.List? then e else List(e.items)
  }

  /** EvaluateOrNull: null for null, otherwise what Evaluate returns. */
  function EvaluateOrNull<T>(e: Option<Enumerable<T>>): (r: Option<Enumerable<T>>)
    ensures e.None? ==> r.None?
    ensures e.Some? ==> r == Some(Evaluate(e.value))
  {
    match e
    case None => None
    case Some(en) => if en.Array? || en.List? then Some(en) else Some(List(en.items))
  }

  /** Evaluating twice is evaluating once. */
  lemma EvaluateIdempotent<T>(e: Enumerable<T>)
    ensures Evaluate(Evaluate(e)) == Evaluate(e)
  {
  }

  // ---------------------------------------------------------------------------
  // SingleOrException / SingleOrDefaultOrException / FirstOrException
  // ---------------------------------------------------------------------------

  /** SingleOrException: the only row, or the "empty" or "multiple" exception. */
  function SingleOrException<T>(rows: seq<T>, exceptionOnEmpty: string, exceptionOnMultipleResults: string, formatArgs: seq<string>)
    : (r: Result<T, Error>)
    ensures r.Success? <==> |rows| == 1
    ensures r.Success? ==> rows == [r.value]
    ensures |rows| == 0 ==> r == Failure(InvalidOperation(exceptionOnEmpty, formatArgs))
    ensures |rows| >= 2 ==> r == Failure(InvalidOperation(exceptionOnMultipleResults, formatArgs))
  {
    if |rows| == 0 then Failure(InvalidOperation(exceptionOnEmpty, formatArgs))
    else if |rows| == 1 then Success(rows[0])
    else Failure(InvalidOperation(exceptionOnMultipleResults, formatArgs))
  }

  /** SingleOrDefaultOrException: `default(T)` (passed in as `defaultValue`) for no rows,
      the only row for one, the "multiple" exception otherwise. */
  function SingleOrDefaultOrException<T>(rows: seq<T>, defaultValue: T, exceptionOnMultipleResults: string, formatArgs: seq<string>)
    : (r: Result<T, Error>)
    ensures r.Success? <==> |rows| <= 1
    ensures |rows| == 0 ==> r == Success(defaultValue)
    ensures |rows| == 1 ==> r == Success(rows[0])
    ensures r.Failure? ==> r.error == InvalidOperation(exceptionOnMultipleResults, formatArgs)
  {
    if |rows| == 0 then Success(defaultValue)
    else if |rows| == 1 then Success(rows[0])
    else Failure(InvalidOperation(exceptionOnMultipleResults, formatArgs))
  }

  /** On a non-empty result the two Single variants agree, whatever default is supplied. */
  lemma SingleVariantsAgree<T>(rows: seq<T>, defaultValue: T, exceptionOnEmpty: string, exceptionOnMultipleResults: string, formatArgs: seq<string>)
    requires |rows| > 0
    ensures SingleOrException(rows, exceptionOnEmpty, exceptionOnMultipleResults, formatArgs)
         == SingleOrDefaultOrException(rows, defaultValue, exceptionOnMultipleResults, formatArgs)
  {
  }

  /** FirstOrException over rows of a reference type (`None` is a null row): it throws
      when `FirstOrDefault` yields null, that is for no rows or a null first row. */
  function FirstOrException<T>(rows: seq<Option<T>>, exceptionOnEmpty: string, formatArgs: seq<string>): (r: Result<T, Error>)
    ensures r.Success? <==> |rows| > 0 && rows[0].Some?
    ensures r.Success? ==> rows[0] == Some(r.value)
    ensures r.Failure? ==> r.error == InvalidOperation(exceptionOnEmpty, formatArgs)
  {
    var first := if |rows| == 0 then None else rows[0];
    if first.None? then Failure(InvalidOperation(exceptionOnEmpty, formatArgs)) else Success(first.value)
  }

  // ---------------------------------------------------------------------------
  // ListExtensions
  // ---------------------------------------------------------------------------

  /** ToList(convertor): applies the convertor to each item, appending in order. */
  method ToList<T, U>(source: seq<T>, convertor: T -> U) returns (result: seq<U>)
    ensures |result| == |source|
    ensures forall i :: 0 <= i < |source| ==> result[i] == convertor(source[i])
  {
    result := [];
    for i := 0 to |source|
      invariant |result| == i
      invariant forall k :: 0 <= k < i ==> result[k] == convertor(source[k])
    {
      result := result + [convertor(source[i])];
    }
  }

  /** ToListOfObjects: copies the enumeration into a new list, in order. */
  method ToListOfObjects<T>(source: seq<T>) returns (result: seq<T>)
    ensures result == source
  {
    result := [];
    for i := 0 to |source|
      invariant result == source[..i]
    {
      result := result + [source[i]];
    }
    assert source[..|source|] == source;
  }

  /** ToEnumerableOfObjects: yields the items one at a time, in order. */
  function ToEnumerableOfObjects<T>(source: seq<T>): (r: seq<T>)
    ensures r == source
  {
    if source == [] then [] else [source[0]] + ToEnumerableOfObjects(source[1..])
  }
}
