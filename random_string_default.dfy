/**
 * DefaultFieldRandomStringValueAttribute: a string property carrying the attribute
 * receives, just before a data item is added, a random prefix of a compressed GUID
 * when its value is still null. With collision checking on, each candidate is
 * looked up in the store, and the fill fails after two candidates found in use.
 *
 * Reflection is replaced by `TypeInfo`, the data item by a `DataRecord` whose
 * fields map property names to possibly-null strings, `Guid.NewGuid` by a
 * `GuidSource` handing out the values of a fixed stream one by one, and the two
 * store queries of ValueIsInUse by the functions of a `StoreQueries` value.
 */
module RandomStringDefault {
  import opened Wrappers

  const MinLength: int := 3
  const MaxLength: int := 22
  const DefaultLength: int := 8
  /** The number of in-use checks made before giving up (line 72). */
  const Tries: nat := 2

  /** `UrlUtils.CompressGuid`: a GUID as 22 URL-safe characters. */
  type CompressedGuid = s: string | |s| == 22 witness "AAAAAAAAAAAAAAAAAAAAAA"

  /** A length the constructor admits. */
  type ValidLength = n: int | MinLength <= n <= MaxLength witness DefaultLength

  datatype Attribute = Attribute(length: ValidLength, checkCollisions: bool)

  /** The ArgumentException `Verify.ArgumentCondition` throws, naming the parameter. */
  datatype AttributeError = ArgumentError(paramName: string, message: string)

  /** Lines 39-46: the constructor, with its default arguments. */
  function NewAttribute(length: int := 8, checkCollisions: bool := false): (r: Result<Attribute, AttributeError>)
    ensures r.Success? <==> MinLength <= length <= MaxLength
    ensures r.Success? ==> r.value.length == length && r.value.checkCollisions == checkCollisions
    ensures length < MinLength ==> r.Failure? && r.error.message == "Minimum allowed length is 3 characters"
    ensures MaxLength < length ==>
      r.Failure? && r.error.message == "Maximum allowed length is 22 characters, which is an equivalent to a Guid value"
    ensures r.Failure? ==> r.error.paramName == "length"
  {
    if length < 3 then Failure(ArgumentError("length", "Minimum allowed length is 3 characters"))
    else if length > 22 then
      Failure(ArgumentError("length", "Maximum allowed length is 22 characters, which is an equivalent to a Guid value"))
    else Success(Attribute(length, checkCollisions))
  }

  /** `[DefaultFieldRandomStringValue]` with no arguments: eight characters, no collision check. */
  lemma DefaultAttributeIsValid()
    ensures NewAttribute() == Success(Attribute(DefaultLength, false))
  {
  }

  // ---------------------------------------------------------------------------
  // Types and their random-string properties
  // ---------------------------------------------------------------------------

  datatype PropertyInfo = PropertyInfo(name: string, isString: bool, attribute: Option<Attribute>)

  /** A data interface: its properties, inherited ones included, and its key property names. */
  datatype TypeInfo = TypeInfo(name: string, properties: seq<PropertyInfo>, keyPropertyNames: seq<string>)

  datatype RandomStringValueProperty = RandomStringValueProperty(property: PropertyInfo, attribute: Attribute, isKey: bool)

  /** Line 143: a property is the key when it is the one and only key property. */
  predicate IsSoleKey(t: TypeInfo, name: string)
  {
    |t.keyPropertyNames| == 1 && t.keyPropertyNames[0] == name
  }

  /** What GetRandomStringProperties lists for `t`: the string properties with the attribute, in order. */
  function RandomStringProperties(t: TypeInfo): (r: seq<RandomStringValueProperty>)
  {
    Selected(t, t.properties)
  }

  function Selected(t: TypeInfo, props: seq<PropertyInfo>): (r: seq<RandomStringValueProperty>)
    ensures |r| <= |props|
  {
    if props == [] then []
    else
      var init := Selected(t, props[..|props| - 1]);
      var p := props[|props| - 1];
      if p.isString && p.attribute.Some? then init + [RandomStringValueProperty(p, p.attribute.value, IsSoleKey(t, p.name))]
      else init
  }

  /** One property gives one entry when it is a string property with the attribute, else none. */
  lemma SelectedSingleton(t: TypeInfo, p: PropertyInfo)
    ensures Selected(t, [p]) ==
      if p.isString && p.attribute.Some? then [RandomStringValueProperty(p, p.attribute.value, IsSoleKey(t, p.name))] else []
  {
    assert [p][..0] == [];
  }

  /** Selection works piece by piece: the entries keep the order of their properties. */
  lemma {:induction false} SelectedAppend(t: TypeInfo, a: seq<PropertyInfo>, b: seq<PropertyInfo>)
    ensures Selected(t, a + b) == Selected(t, a) + Selected(t, b)
    decreases |b|
  {
    if b == [] {
      assert a + b == a;
    } else {
      var b0 := b[..|b| - 1];
      var p := b[|b| - 1];
      assert (a + b)[..|a + b| - 1] == a + b0 && (a + b)[|a + b| - 1] == p;
      SelectedAppend(t, a, b0);
      var tail: seq<RandomStringValueProperty> :=
        if p.isString && p.attribute.Some? then [RandomStringValueProperty(p, p.attribute.value, IsSoleKey(t, p.name))] else [];
      assert Selected(t, a + b) == Selected(t, a + b0) + tail;
      assert Selected(t, b) == Selected(t, b0) + tail;
      assert Selected(t, a) + Selected(t, b0) + tail == Selected(t, a) + (Selected(t, b0) + tail);
    }
  }

  /** A property is listed exactly when it is a string property carrying the attribute; it is
      listed with that attribute and is a key exactly when it is the sole key property. */
  lemma {:induction false} SelectedMembers(t: TypeInfo, props: seq<PropertyInfo>, f: RandomStringValueProperty)
    ensures f in Selected(t, props) <==>
      f.property in props && f.property.isString && f.property.attribute == Some(f.attribute) &&
      f.isKey == IsSoleKey(t, f.property.name)
  {
    if props != [] {
      SelectedMembers(t, props[..|props| - 1], f);
      assert props == props[..|props| - 1] + [props[|props| - 1]];
    }
  }

  /** Lines 131-148: the factory GetOrAdd runs on a cache miss. */
  method CollectRandomStringProperties(t: TypeInfo) returns (result: seq<RandomStringValueProperty>)
    ensures result == RandomStringProperties(t)
  {
    result := [];
    for i := 0 to |t.properties|
      invariant result == Selected(t, t.properties[..i])
    {
      var property := t.properties[i];
      assert t.properties[..i + 1][..i] == t.properties[..i];
      if property.isString && property.attribute.Some? {
        var isKey := |t.keyPropertyNames| == 1 && t.keyPropertyNames[0] == property.name;
        result := result + [RandomStringValueProperty(property, property.attribute.value, isKey)];
      }
    }
    assert t.properties[..|t.properties|] == t.properties;
  }

  /** The per-type reflection cache of line 22, emptied on every flush (line 51). */
  class ReflectionCache {
    var entries: map<TypeInfo, seq<RandomStringValueProperty>>

    /** Every cached list is the one the factory computes for its type. */
    predicate Valid()
      reads this
    {
      forall t :: t in entries ==> entries[t] == RandomStringProperties(t)
    }

    constructor()
      ensures Valid() && entries == map[]
    {
      entries := map[];
    }

    /** Lines 127-150: a hit returns the cached list, a miss computes and stores it. */
    method GetRandomStringProperties(t: TypeInfo) returns (r: seq<RandomStringValueProperty>)
      requires Valid()
      modifies this
      ensures Valid()
      ensures r == RandomStringProperties(t)
      ensures entries == old(entries)[t := r]
    {
      if t in entries {
        r := entries[t];
      } else {
        r := CollectRandomStringProperties(t);
        entries := entries[t := r];
      }
    }

    /** Line 51: the flush handler. */
    method Clear()
      modifies this
      ensures Valid() && entries == map[]
    {
      entries := map[];
    }
  }

  // ---------------------------------------------------------------------------
  // Random strings and the in-use check
  // ---------------------------------------------------------------------------

  /** `Guid.NewGuid()` compressed: the next value of a fixed stream. */
  class GuidSource {
    const guids: nat -> CompressedGuid
    var drawn: nat

    constructor(guids: nat -> CompressedGuid)
      ensures this.guids == guids && drawn == 0
    {
      this.guids := guids;
      drawn := 0;
    }

    /** Lines 122-125: the first `length` characters of a fresh compressed GUID. */
    method GenerateRandomString(length: ValidLength) returns (s: string)
      modifies this
      ensures s == RandomString(guids(old(drawn)), length) && drawn == old(drawn) + 1
    {
      s := guids(drawn)[..length];
      drawn := drawn + 1;
    }
  }

  function RandomString(guid: CompressedGuid, length: ValidLength): (s: string)
    ensures |s| == length && s == guid[..|s|]
  {
    guid[..length]
  }

  /** The two store queries: a lookup by unique key and a query on one property's value. */
  datatype StoreQueries = StoreQueries(
    tryGetByUniqueKey: (TypeInfo, string, string) -> bool,  // TryGetDataByUniqueKey(...) != null
    anyWithValue: (TypeInfo, string, string) -> bool)      // GetData(data => data.P == value).Any()

  /** Lines 95-120: the key lookup for a key field, the property query otherwise. */
  function ValueIsInUse(q: StoreQueries, t: TypeInfo, property: PropertyInfo, value: string, isKeyField: bool): bool
  {
    if isKeyField then q.tryGetByUniqueKey(t, property.name, value) else q.anyWithValue(t, property.name, value)
  }

  datatype FillError = NoUniqueValue(tries: nat, fieldName: string, length: int)

  /** What filling one null field draws: the value set (or the error thrown) and the draw count after. */
  datatype Draw = Draw(value: Result<string, FillError>, drawn: nat)

  /** Lines 73-82 from iteration `i` on, when `randomString` was drawn as number `next - 1`. */
  function Retry(f: RandomStringValueProperty, t: TypeInfo, guids: nat -> CompressedGuid, q: StoreQueries, i: nat, next: nat): (d: Draw)
    requires next > 0
    ensures d.drawn >= next
    decreases Tries - i
  {
    var randomString := RandomString(guids(next - 1), f.attribute.length);
    if i >= Tries then Draw(Failure(NoUniqueValue(Tries, f.property.name, f.attribute.length)), next)
    else if !ValueIsInUse(q, t, f.property, randomString, f.isKey) then Draw(Success(randomString), next)
    else Retry(f, t, guids, q, i + 1, next + 1)
  }

  /** Lines 66-89 for one field whose value is null, starting from draw number `next`. */
  function FillValue(f: RandomStringValueProperty, t: TypeInfo, guids: nat -> CompressedGuid, q: StoreQueries, next: nat): (d: Draw)
  {
    if f.attribute.checkCollisions then Retry(f, t, guids, q, 0, next + 1)
    else Draw(Success(RandomString(guids(next), f.attribute.length)), next + 1)
  }

  /** Without collision checking the first random string is taken, unexamined. */
  lemma FillValueUnchecked(f: RandomStringValueProperty, t: TypeInfo, guids: nat -> CompressedGuid, q: StoreQueries, next: nat)
    requires !f.attribute.checkCollisions
    ensures FillValue(f, t, guids, q, next) == Draw(Success(RandomString(guids(next), f.attribute.length)), next + 1)
  {
  }

  /** From iteration `i`, a value is found among the next `Tries - i` draws and is one that
      checked as not in use; otherwise every one of them checked as in use. */
  lemma {:induction false} RetryOutcome(f: RandomStringValueProperty, t: TypeInfo, guids: nat -> CompressedGuid, q: StoreQueries, i: nat, next: nat)
    requires next > 0 && i <= Tries
    ensures var d := Retry(f, t, guids, q, i, next);
      && d.drawn <= next + (Tries - i)
      && (d.value.Success? ==>
            && d.value.value == RandomString(guids(d.drawn - 1), f.attribute.length)
            && !ValueIsInUse(q, t, f.property, d.value.value, f.isKey))
      && (d.value.Failure? ==>
            && d.value.error == NoUniqueValue(Tries, f.property.name, f.attribute.length)
            && d.drawn == next + (Tries - i)
            && forall k :: next - 1 <= k < d.drawn - 1 ==>
                 ValueIsInUse(q, t, f.property, RandomString(guids(k), f.attribute.length), f.isKey))
    decreases Tries - i
  {
    if i < Tries && ValueIsInUse(q, t, f.property, RandomString(guids(next - 1), f.attribute.length), f.isKey) {
      RetryOutcome(f, t, guids, q, i + 1, next + 1);
    }
  }

  /** With collision checking: at most two candidates, the value set checked as not in use,
      and a failure only when both candidates were in use. */
  lemma FillValueChecked(f: RandomStringValueProperty, t: TypeInfo, guids: nat -> CompressedGuid, q: StoreQueries, next: nat)
    requires f.attribute.checkCollisions
    ensures var d := FillValue(f, t, guids, q, next);
      && next < d.drawn <= next + 1 + Tries
      && (d.value.Success? ==>
            && d.drawn <= next + Tries
            && d.value.value == RandomString(guids(d.drawn - 1), f.attribute.length)
            && !ValueIsInUse(q, t, f.property, d.value.value, f.isKey))
      && (d.value.Failure? ==>
            && d.value.error == NoUniqueValue(Tries, f.property.name, f.attribute.length)
            && forall k :: next <= k < next + Tries ==>
                 ValueIsInUse(q, t, f.property, RandomString(guids(k), f.attribute.length), f.isKey))
  {
    RetryOutcome(f, t, guids, q, 0, next + 1);
  }

  /** Every value FillValue sets has the attribute's length. */
  lemma FillValueLength(f: RandomStringValueProperty, t: TypeInfo, guids: nat -> CompressedGuid, q: StoreQueries, next: nat)
    ensures var d := FillValue(f, t, guids, q, next);
      d.value.Success? ==> |d.value.value| == f.attribute.length
  {
    if f.attribute.checkCollisions {
      FillValueChecked(f, t, guids, q, next);
    }
  }

  // ---------------------------------------------------------------------------
  // OnBeforeAddData
  // ---------------------------------------------------------------------------

  /** The data item about to be added: property name to value, `None` for null. */
  class DataRecord {
    var fields: map<string, Option<string>>

    constructor(fields: map<string, Option<string>>)
      ensures this.fields == fields
    {
      this.fields := fields;
    }
  }

  /** The fields, the draw count and whether an exception has been thrown so far. */
  datatype FillState = FillState(fields: map<string, Option<string>>, drawn: nat, outcome: Outcome<FillError>)

  /** Lines 63-91 for one field: nothing once an exception is thrown or when the value is not null. */
  function FillStep(st: FillState, f: RandomStringValueProperty, t: TypeInfo, guids: nat -> CompressedGuid, q: StoreQueries): (r: FillState)
    ensures r.fields.Keys == st.fields.Keys
  {
    if st.outcome.Fail? || f.property.name !in st.fields || st.fields[f.property.name].Some? then st
    else
      var d := FillValue(f, t, guids, q, st.drawn);
      match d.value
      case Success(v) => FillState(st.fields[f.property.name := Some(v)], d.drawn, Pass)
      case Failure(e) => FillState(st.fields, d.drawn, Fail(e))
  }

  /** Lines 61-92: the fields in order, stopping at the first exception. */
  function FillAll(props: seq<RandomStringValueProperty>, st: FillState, t: TypeInfo, guids: nat -> CompressedGuid, q: StoreQueries): (r: FillState)
    ensures r.fields.Keys == st.fields.Keys
  {
    if props == [] then st else FillStep(FillAll(props[..|props| - 1], st, t, guids, q), props[|props| - 1], t, guids, q)
  }

  /** A field that is not null keeps its value. */
  lemma {:induction false} FillAllKeepsNonNull(props: seq<RandomStringValueProperty>, st: FillState, t: TypeInfo, guids: nat -> CompressedGuid, q: StoreQueries, name: string)
    requires name in st.fields && st.fields[name].Some?
    ensures FillAll(props, st, t, guids, q).fields[name] == st.fields[name]
  {
    if props != [] {
      FillAllKeepsNonNull(props[..|props| - 1], st, t, guids, q, name);
    }
  }

  /** Every value set by the fill has the length of the attribute of a listed field of that name. */
  lemma {:induction false} FillAllLengths(props: seq<RandomStringValueProperty>, st: FillState, t: TypeInfo, guids: nat -> CompressedGuid, q: StoreQueries, name: string)
    requires name in st.fields && st.fields[name].None?
    ensures var r := FillAll(props, st, t, guids, q);
      r.fields[name].Some? ==>
        exists i :: 0 <= i < |props| && props[i].property.name == name && |r.fields[name].value| == props[i].attribute.length
  {
    if props != [] {
      var init := props[..|props| - 1];
      var f := props[|props| - 1];
      var mid := FillAll(init, st, t, guids, q);
      FillAllLengths(init, st, t, guids, q, name);
      var r := FillStep(mid, f, t, guids, q);
      if r.fields[name].Some? {
        if mid.fields[name].Some? {
          var i :| 0 <= i < |init| && init[i].property.name == name && |mid.fields[name].value| == init[i].attribute.length;
          assert props[i] == init[i];
        } else {
          FillValueLength(f, t, guids, q, mid.drawn);
          assert props[|props| - 1] == f;
        }
      }
    }
  }

  /** When no exception is thrown, no listed field is left null. */
  lemma {:induction false} FillAllFillsEveryField(props: seq<RandomStringValueProperty>, st: FillState, t: TypeInfo, guids: nat -> CompressedGuid, q: StoreQueries)
    requires st.outcome.Pass?
    requires forall i :: 0 <= i < |props| ==> props[i].property.name in st.fields
    ensures var r := FillAll(props, st, t, guids, q);
      r.outcome.Pass? ==> forall i :: 0 <= i < |props| ==> r.fields[props[i].property.name].Some?
  {
    if props != [] {
      var init := props[..|props| - 1];
      var mid := FillAll(init, st, t, guids, q);
      FillAllFillsEveryField(init, st, t, guids, q);
      var r := FillAll(props, st, t, guids, q);
      if r.outcome.Pass? {
        assert mid.outcome.Pass?;
        forall i | 0 <= i < |props| ensures r.fields[props[i].property.name].Some? {
          if i < |init| {
            assert props[i] == init[i];
            FillAllKeepsNonNull([props[|props| - 1]], mid, t, guids, q, props[i].property.name);
            assert FillAll([props[|props| - 1]], mid, t, guids, q) == r by {
              assert [props[|props| - 1]][..0] == [];
            }
          }
        }
      }
    }
  }

  /** Lines 63-91 for one field, statement by statement. */
  method FillField(data: DataRecord, f: RandomStringValueProperty, t: TypeInfo, rnd: GuidSource, q: StoreQueries)
    returns (r: Outcome<FillError>, ghost checked: seq<string>)
    requires f.property.name in data.fields
    modifies data, rnd
    ensures var st := FillStep(FillState(old(data.fields), old(rnd.drawn), Pass), f, t, rnd.guids, q);
      data.fields == st.fields && rnd.drawn == st.drawn && r == st.outcome
    ensures |checked| <= Tries
    ensures forall k :: 0 <= k < |checked| - 1 ==> ValueIsInUse(q, t, f.property, checked[k], f.isKey)
    ensures r.Fail? ==> |checked| == Tries && forall k :: 0 <= k < |checked| ==> ValueIsInUse(q, t, f.property, checked[k], f.isKey)
    ensures r.Pass? && f.attribute.checkCollisions && old(data.fields)[f.property.name].None? ==>
      |checked| > 0 && data.fields[f.property.name] == Some(checked[|checked| - 1]) &&
      !ValueIsInUse(q, t, f.property, checked[|checked| - 1], f.isKey)
  {
    checked := [];
    var value := data.fields[f.property.name];
    if value.Some? {
      return Pass, checked;
    }
    ghost var start := rnd.drawn;
    var randomString := rnd.GenerateRandomString(f.attribute.length);
    if f.attribute.checkCollisions {
      var uniqueValueFound;
      uniqueValueFound, randomString, checked := FindUnusedValue(f, t, rnd, q, randomString);
      if !uniqueValueFound {
        return Fail(NoUniqueValue(Tries, f.property.name, f.attribute.length)), checked;
      }
    }
    data.fields := data.fields[f.property.name := Some(randomString)];
    r := Pass;
  }

  /** Lines 70-82: check the candidate, drawing a new one after each that is in use, at most
      `Tries` times; `checked` holds the candidates checked, in order. */
  method FindUnusedValue(f: RandomStringValueProperty, t: TypeInfo, rnd: GuidSource, q: StoreQueries, first: string)
    returns (uniqueValueFound: bool, randomString: string, ghost checked: seq<string>)
    requires rnd.drawn > 0 && first == RandomString(rnd.guids(rnd.drawn - 1), f.attribute.length)
    modifies rnd
    ensures var d := Retry(f, t, rnd.guids, q, 0, old(rnd.drawn));
      && rnd.drawn == d.drawn
      && (uniqueValueFound <==> d.value.Success?)
      && (uniqueValueFound ==> randomString == d.value.value)
    ensures |checked| <= Tries
    ensures forall k :: 0 <= k < |checked| - 1 ==> ValueIsInUse(q, t, f.property, checked[k], f.isKey)
    ensures !uniqueValueFound ==> |checked| == Tries && forall k :: 0 <= k < |checked| ==> ValueIsInUse(q, t, f.property, checked[k], f.isKey)
    ensures uniqueValueFound ==>
      |checked| > 0 && randomString == checked[|checked| - 1] && !ValueIsInUse(q, t, f.property, randomString, f.isKey)
  {
    checked := [];
    randomString := first;
    uniqueValueFound := false;
    var i := 0;
    while i < Tries
      invariant 0 <= i <= Tries && |checked| == i
      invariant rnd.drawn == old(rnd.drawn) + i
      invariant randomString == RandomString(rnd.guids(rnd.drawn - 1), f.attribute.length)
      invariant Retry(f, t, rnd.guids, q, i, rnd.drawn) == Retry(f, t, rnd.guids, q, 0, old(rnd.drawn))
      invariant forall k :: 0 <= k < i ==> ValueIsInUse(q, t, f.property, checked[k], f.isKey)
    {
      checked := checked + [randomString];
      if !ValueIsInUse(q, t, f.property, randomString, f.isKey) {
        uniqueValueFound := true;
        return;
      }
      randomString := rnd.GenerateRandomString(f.attribute.length);
      i := i + 1;
    }
  }

  /** Lines 54-93: fill the null random-string fields of `data`, a record of type `t`. */
  method OnBeforeAddData(data: DataRecord, t: TypeInfo, cache: ReflectionCache, rnd: GuidSource, q: StoreQueries)
    returns (r: Outcome<FillError>)
    requires cache.Valid()
    requires forall p :: p in t.properties ==> p.name in data.fields
    modifies data, cache, rnd
    ensures cache.Valid()
    ensures var st := FillAll(RandomStringProperties(t), FillState(old(data.fields), old(rnd.drawn), Pass), t, rnd.guids, q);
      data.fields == st.fields && rnd.drawn == st.drawn && r == st.outcome
  {
    var fieldsToFill := cache.GetRandomStringProperties(t);
    ghost var st0 := FillState(data.fields, rnd.drawn, Pass);
    r := Pass;
    var i := 0;
    while i < |fieldsToFill|
      modifies data, rnd
      invariant 0 <= i <= |fieldsToFill|
      invariant data.fields.Keys == old(data.fields).Keys
      invariant r.Pass?
      invariant FillAll(fieldsToFill[..i], st0, t, rnd.guids, q) == FillState(data.fields, rnd.drawn, r)
    {
      var field := fieldsToFill[i];
      SelectedMembers(t, t.properties, field);
      FillAllPrefix(fieldsToFill, i, st0, t, rnd.guids, q);
      ghost var checked;
      r, checked := FillField(data, field, t, rnd, q);
      if r.Fail? {
        FillAllStaysFailed(fieldsToFill, i + 1, st0, t, rnd.guids, q);
        return;
      }
      i := i + 1;
    }
    assert fieldsToFill[..i] == fieldsToFill;
  }

  lemma FillAllPrefix(props: seq<RandomStringValueProperty>, i: nat, st: FillState, t: TypeInfo, guids: nat -> CompressedGuid, q: StoreQueries)
    requires i < |props|
    ensures FillAll(props[..i + 1], st, t, guids, q) == FillStep(FillAll(props[..i], st, t, guids, q), props[i], t, guids, q)
  {
    assert props[..i + 1][..i] == props[..i];
  }

  /** Once an exception is thrown the remaining fields change nothing. */
  lemma {:induction false} FillAllStaysFailed(props: seq<RandomStringValueProperty>, n: nat, st: FillState, t: TypeInfo, guids: nat -> CompressedGuid, q: StoreQueries)
    requires n <= |props|
    requires FillAll(props[..n], st, t, guids, q).outcome.Fail?
    ensures FillAll(props, st, t, guids, q) == FillAll(props[..n], st, t, guids, q)
    decreases |props| - n
  {
    if n < |props| {
      assert props[..n + 1][..n] == props[..n];
      FillAllStaysFailed(props, n + 1, st, t, guids, q);
    } else {
      assert props[..n] == props;
    }
  }
}
