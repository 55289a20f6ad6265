/** The single-record OTLP envelopes that are redacted, made canonical, hashed and stored. */
module Envelope {
  import opened Redaction
  import opened CanonicalJson

  // ----- OTLP JSON of attribute values -----

  function Single(name: string, value: Json): Json {
    Obj([Field(name, value)])
  }

  /** An empty list is left out of its wrapper. */
  function Wrapped(name: string, items: seq<Json>): Json {
    Single(name, Obj(if items == [] then [] else [Field("values", Arr(items))]))
  }

  /** JSON has no numbers that are not finite: they are written as texts. */
  function Number(digits: string): Json {
    if digits in {"NaN", "Infinity", "-Infinity"} then Json.Str(digits) else Num(digits)
  }

  function EncodeValue(v: Value): Json {
    match v
    case Empty => Obj([])
    case Str(text) => Single("stringValue", Json.Str(text))
    case Bool(b) => Single("boolValue", Json.Bool(b))
    case Int(digits) => Single("intValue", Json.Str(digits))
    case Double(digits) => Single("doubleValue", Number(digits))
    case Bytes(base64) => Single("bytesValue", Json.Str(base64))
    case Slice(items) => Wrapped("arrayValue", EncodeItems(items))
    case Map(entries) => Wrapped("kvlistValue", EncodeMap(entries))
  }

  function EncodeItems(items: seq<Value>): (js: seq<Json>)
    ensures |js| == |items|
  {
    if items == [] then [] else [EncodeValue(items[0])] + EncodeItems(items[1..])
  }

  function Entry(key: string, value: Json): Json {
    Obj([Field("key", Json.Str(key)), Field("value", value)])
  }

  function EncodeMap(entries: seq<Attribute>): (js: seq<Json>)
    ensures |js| == |entries|
  {
    if entries == [] then [] else [Entry(entries[0].key, EncodeValue(entries[0].value))] + EncodeMap(entries[1..])
  }

  // ----- Sending the same attributes again -----

  /** The attributes with one key, in their order. */
  function WithKey(es: seq<Attribute>, key: string): seq<Attribute> {
    if es == [] then [] else (if es[0].key == key then [es[0]] else []) + WithKey(es[1..], key)
  }

  lemma {:induction false} WithKeyMembers(es: seq<Attribute>, key: string)
    ensures forall e :: e in WithKey(es, key) <==> e in es && e.key == key
  {
    if es != [] {
      WithKeyMembers(es[1..], key);
      assert es == [es[0]] + es[1..];
    }
  }

  /**
   b is a with attributes in another order and anything at all under sensitive keys. Attributes with
   the same key, which a map may have, keep their order among themselves.
   */
  ghost predicate Resent(a: Value, b: Value)
    decreases a, 0
  {
    match (a, b)
    case (Map(es), Map(fs)) => ResentMap(es, fs)
    case (Slice(xs), Slice(ys)) => |xs| == |ys| && forall i :: 0 <= i < |xs| ==> Resent(xs[i], ys[i])
    case _ => a == b
  }

  ghost predicate ResentMap(es: seq<Attribute>, fs: seq<Attribute>)
    decreases es, 1
  {
    forall key: string :: ResentUnder(es, fs, key)
  }

  ghost predicate ResentUnder(es: seq<Attribute>, fs: seq<Attribute>, key: string)
    decreases es, 0
  {
    var us, vs := WithKey(es, key), WithKey(fs, key);
    |us| == |vs| && forall k :: 0 <= k < |us| ==> us[k] in es && (IsSensitiveKey(key) || Resent(us[k].value, vs[k].value))
  }

  // ----- Having the same canonical form, part by part -----

  /** Two JSON values with the same canonical form. */
  predicate Same(a: Json, b: Json, parent: string) {
    Canonicalize(a, parent) == Canonicalize(b, parent)
  }

  predicate SameEach(xs: seq<Json>, ys: seq<Json>, parent: string) {
    |xs| == |ys| && forall i :: 0 <= i < |xs| ==> Same(xs[i], ys[i], parent)
  }

  predicate SameField(f: Field, g: Field, parent: string) {
    f.name == g.name && CanonicalChild(f, parent) == CanonicalChild(g, parent)
  }

  /** Two lists of fields with the same canonical forms, field by field. */
  predicate SameAll(fs: seq<Field>, gs: seq<Field>, parent: string) {
    |fs| == |gs| && forall i :: 0 <= i < |fs| ==> SameField(fs[i], gs[i], parent)
  }

  lemma {:induction false} CanonicalItemAt(xs: seq<Json>, i: nat, parent: string)
    requires i < |xs|
    ensures CanonicalItems(xs, parent)[i] == Canonicalize(xs[i], parent)
  {
    if i > 0 {
      CanonicalItemAt(xs[1..], i - 1, parent);
    }
  }

  lemma ItemsAlike(xs: seq<Json>, ys: seq<Json>, parent: string)
    ensures CanonicalItems(xs, parent) == CanonicalItems(ys, parent) <==> SameEach(xs, ys, parent)
  {
    var cx, cy := CanonicalItems(xs, parent), CanonicalItems(ys, parent);
    forall i | 0 <= i < |xs| ensures cx[i] == Canonicalize(xs[i], parent) { CanonicalItemAt(xs, i, parent); }
    forall i | 0 <= i < |ys| ensures cy[i] == Canonicalize(ys[i], parent) { CanonicalItemAt(ys, i, parent); }
    if SameEach(xs, ys, parent) {
      forall i | 0 <= i < |cx| ensures cx[i] == cy[i] { assert Same(xs[i], ys[i], parent); }
    }
  }

  lemma {:induction false} CanonicalFieldAt(fs: seq<Field>, i: nat, parent: string)
    requires i < |fs|
    ensures CanonicalFields(fs, parent)[i] == Field(fs[i].name, CanonicalChild(fs[i], parent))
  {
    if i > 0 {
      CanonicalFieldAt(fs[1..], i - 1, parent);
    }
  }

  lemma ObjectsAlike(fs: seq<Field>, gs: seq<Field>, parent: string)
    ensures Same(Obj(fs), Obj(gs), parent) <==> SameAll(fs, gs, parent)
  {
    var cf, cg := CanonicalFields(fs, parent), CanonicalFields(gs, parent);
    forall i | 0 <= i < |fs| ensures cf[i] == Field(fs[i].name, CanonicalChild(fs[i], parent)) { CanonicalFieldAt(fs, i, parent); }
    forall i | 0 <= i < |gs| ensures cg[i] == Field(gs[i].name, CanonicalChild(gs[i], parent)) { CanonicalFieldAt(gs, i, parent); }
    if SameAll(fs, gs, parent) {
      forall i | 0 <= i < |cf| ensures cf[i] == cg[i] { assert SameField(fs[i], gs[i], parent); }
    }
  }

  lemma OneField(f: Field, g: Field, parent: string)
    ensures Same(Obj([f]), Obj([g]), parent) <==> SameField(f, g, parent)
  {
    ObjectsAlike([f], [g], parent);
    assert SameAll([f], [g], parent) <==> SameField([f][0], [g][0], parent);
  }

  lemma ThreeFields(f: Field, g: Field, f': Field, g': Field, f'': Field, g'': Field, parent: string)
    ensures Same(Obj([f, f', f'']), Obj([g, g', g'']), parent)
      <==> SameField(f, g, parent) && SameField(f', g', parent) && SameField(f'', g'', parent)
  {
    var fs, gs := [f, f', f''], [g, g', g''];
    ObjectsAlike(fs, gs, parent);
    assert SameAll(fs, gs, parent) ==>
      SameField(fs[0], gs[0], parent) && SameField(fs[1], gs[1], parent) && SameField(fs[2], gs[2], parent);
  }

  /** A name that is not that of a key/value list, under any parent that the envelopes use it with. */
  predicate PlainName(name: string) {
    name !in {"attributes", "filteredAttributes", "metadata", "values"}
  }

  /** An ordinary field: its name is not that of a key/value list. */
  lemma PlainField(name: string, a: Json, b: Json, parent: string)
    requires !IsKeyValueList(name, parent)
    ensures SameField(Field(name, a), Field(name, b), parent) <==> Same(a, b, name)
  {
  }

  lemma ListField(name: string, xs: seq<Json>, ys: seq<Json>, parent: string)
    requires IsKeyValueList(name, parent)
    ensures SameField(Field(name, Arr(xs)), Field(name, Arr(ys)), parent) <==> ReorderedList(xs, ys, name)
  {
    NormalFormOfChild(Field(name, Arr(xs)), Field(name, Arr(ys)), parent);
  }

  lemma ArraysAlike(xs: seq<Json>, ys: seq<Json>, parent: string)
    ensures Same(Arr(xs), Arr(ys), parent) <==> SameEach(xs, ys, parent)
  {
    ItemsAlike(xs, ys, parent);
  }

  lemma TextsAlike(a: string, b: string, parent: string)
    ensures Same(Json.Str(a), Json.Str(b), parent) <==> a == b
  {
  }

  lemma SinglesAlike(name: string, a: Json, name': string, b: Json, parent: string)
    requires PlainName(name) && PlainName(name')
    ensures Same(Single(name, a), Single(name', b), parent) <==> name == name' && Same(a, b, name)
  {
    OneField(Field(name, a), Field(name', b), parent);
    if name == name' { PlainField(name, a, b, parent); }
  }

  // ----- Keyed subsequences of an encoded map -----

  lemma {:induction false} EncodedAt(entries: seq<Attribute>, i: nat)
    requires i < |entries|
    ensures EncodeMap(entries)[i] == Entry(entries[i].key, EncodeValue(entries[i].value))
  {
    if i > 0 {
      EncodedAt(entries[1..], i - 1);
    }
  }

  lemma {:induction false} RedactedAt(entries: seq<Attribute>, i: nat)
    requires i < |entries|
    ensures RedactMap(entries)[i]
      == Attribute(entries[i].key, if IsSensitiveKey(entries[i].key) then REDACTED else RedactValue(entries[i].value))
  {
    if i > 0 {
      RedactedAt(entries[1..], i - 1);
    }
  }

  /** Among the encoded entries, those with a key are the encoded attributes with that key. */
  lemma {:induction false} KeyedList(es: seq<Attribute>, key: string)
    ensures Keyed(RedactedList(es), key) == RedactedList(WithKey(es, key))
  {
    if es != [] {
      var rest := es[1..];
      var first := Attribute(es[0].key, if IsSensitiveKey(es[0].key) then REDACTED else RedactValue(es[0].value));
      var entry := Entry(first.key, EncodeValue(first.value));
      KeyedList(rest, key);
      assert RedactMap(es)[1..] == RedactMap(rest);
      assert RedactedList(es)[1..] == RedactedList(rest) && RedactedList(es)[0] == entry;
      assert EntryKey(entry) == es[0].key;
      if es[0].key == key {
        assert WithKey(es, key)[1..] == WithKey(rest, key);
        assert RedactedList(WithKey(es, key)) == [entry] + RedactedList(WithKey(rest, key)) by {
          assert RedactMap(WithKey(es, key))[1..] == RedactMap(WithKey(rest, key));
        }
      } else {
        assert WithKey(es, key) == WithKey(rest, key);
      }
    }
  }

  lemma EntryAt(es: seq<Attribute>, k: nat)
    requires k < |es|
    ensures |RedactedList(es)| == |es|
    ensures RedactedList(es)[k]
      == Entry(es[k].key, EncodeValue(if IsSensitiveKey(es[k].key) then REDACTED else RedactValue(es[k].value)))
  {
    RedactedAt(es, k);
    EncodedAt(RedactMap(es), k);
  }

  // ----- Resent attributes have the same canonical form -----

  function RedactedList(es: seq<Attribute>): seq<Json> {
    EncodeMap(RedactMap(es))
  }

  lemma EntriesAlike(key: string, a: Json, key': string, b: Json, parent: string)
    ensures Same(Entry(key, a), Entry(key', b), parent) <==> key == key' && Same(a, b, "value")
  {
    var k, k', f, g := Field("key", Json.Str(key)), Field("key", Json.Str(key')), Field("value", a), Field("value", b);
    PlainField("key", k.value, k'.value, parent);
    TextsAlike(key, key', "key");
    PlainField("value", a, b, parent);
    ObjectsAlike([k, f], [k', g], parent);
    assert SameAll([k, f], [k', g], parent) ==> SameField([k, f][0], [k', g][0], parent) && SameField([k, f][1], [k', g][1], parent);
  }

  /** An attribute list in its wrapper. */
  lemma MapsAlike(xs: seq<Json>, ys: seq<Json>, parent: string)
    requires ReorderedList(xs, ys, "values") ==> (xs == [] <==> ys == [])
    ensures Same(Wrapped("kvlistValue", xs), Wrapped("kvlistValue", ys), parent) <==> ReorderedList(xs, ys, "values")
  {
    var x, y := if xs == [] then [] else [Field("values", Arr(xs))], if ys == [] then [] else [Field("values", Arr(ys))];
    SinglesAlike("kvlistValue", Obj(x), "kvlistValue", Obj(y), parent);
    ObjectsAlike(x, y, "kvlistValue");
    ListField("values", xs, ys, "kvlistValue");
    if xs == [] && ys == [] {
      assert SameAll(x, y, "kvlistValue");
      assert SameField(Field("values", Arr(xs)), Field("values", Arr(ys)), "kvlistValue");
    } else if xs != [] && ys != [] {
      OneField(x[0], y[0], "kvlistValue");
    }
  }

  lemma SlicesAlike(xs: seq<Json>, ys: seq<Json>, parent: string)
    ensures Same(Wrapped("arrayValue", xs), Wrapped("arrayValue", ys), parent) <==> SameEach(xs, ys, "values")
  {
    var x, y := if xs == [] then [] else [Field("values", Arr(xs))], if ys == [] then [] else [Field("values", Arr(ys))];
    SinglesAlike("arrayValue", Obj(x), "arrayValue", Obj(y), parent);
    ObjectsAlike(x, y, "arrayValue");
    if xs != [] && ys != [] {
      OneField(x[0], y[0], "arrayValue");
      PlainField("values", Arr(xs), Arr(ys), "arrayValue");
      ArraysAlike(xs, ys, "values");
    }
  }

  function Wrapper(v: Value): string
    requires v != Empty
  {
    match v
    case Str(_) => "stringValue"
    case Bool(_) => "boolValue"
    case Int(_) => "intValue"
    case Double(_) => "doubleValue"
    case Bytes(_) => "bytesValue"
    case Slice(_) => "arrayValue"
    case Map(_) => "kvlistValue"
  }

  /** Values of different types are told apart by their wrappers. */
  lemma TypesApart(a: Value, b: Value, parent: string)
    requires (a == Empty) != (b == Empty) || (a != Empty && b != Empty && Wrapper(a) != Wrapper(b))
    ensures !Same(EncodeValue(a), EncodeValue(b), parent)
  {
    var x, y := EncodeValue(a), EncodeValue(b);
    ObjectsAlike(x.fields, y.fields, parent);
    if a != Empty && b != Empty {
      assert x.fields[0].name == Wrapper(a) && y.fields[0].name == Wrapper(b);
      assert !SameField(x.fields[0], y.fields[0], parent);
    }
  }

  /** Scalars are their texts. */
  lemma ScalarsAlike(a: Value, b: Value, parent: string)
    requires !a.Map? && !a.Slice? && !b.Map? && !b.Slice? && a != Empty && b != Empty && Wrapper(a) == Wrapper(b)
    ensures Same(EncodeValue(a), EncodeValue(b), parent) <==> a == b
  {
    var x, y := EncodeValue(a).fields[0].value, EncodeValue(b).fields[0].value;
    SinglesAlike(Wrapper(a), x, Wrapper(b), y, parent);
    assert Same(x, y, Wrapper(a)) <==> x == y;
  }

  lemma RedactedWrapper(v: Value)
    ensures RedactValue(v) == Empty <==> v == Empty
    ensures v != Empty ==> Wrapper(RedactValue(v)) == Wrapper(v)
    ensures !v.Map? && !v.Slice? ==> RedactValue(v) == v
  {
  }

  /**
   Two values have the same canonical form, once redacted and encoded, exactly when one is the other
   sent again: everything but the order of maps and the values under sensitive keys is in the payload.
   */
  lemma {:induction false} ResentValues(a: Value, b: Value, parent: string)
    ensures Same(EncodeValue(RedactValue(a)), EncodeValue(RedactValue(b)), parent) <==> Resent(a, b)
    decreases a, 1
  {
    hide Same, EncodeValue;
    RedactedWrapper(a);
    RedactedWrapper(b);
    if a == Empty && b == Empty {
      SameItself(EncodeValue(Empty), parent);
    } else if a == Empty || b == Empty || Wrapper(a) != Wrapper(b) {
      TypesApart(RedactValue(a), RedactValue(b), parent);
    } else if a.Map? {
      ResentMaps(a, b, parent);
    } else if a.Slice? {
      ResentSlices(a, b, parent);
    } else {
      ScalarsAlike(a, b, parent);
    }
  }

  lemma {:induction false} ResentMaps(a: Value, b: Value, parent: string)
    requires a.Map? && b.Map?
    ensures Same(EncodeValue(RedactValue(a)), EncodeValue(RedactValue(b)), parent) <==> Resent(a, b)
    decreases a, 0
  {
    hide Same;
    var xs, ys := RedactedList(a.entries), RedactedList(b.entries);
    ResentLists(a.entries, b.entries, "values");
    if ResentMap(a.entries, b.entries) { ResentEmptiness(a.entries, b.entries); }
    MapsAlike(xs, ys, parent);
  }

  lemma {:induction false} ResentSlices(a: Value, b: Value, parent: string)
    requires a.Slice? && b.Slice?
    ensures Same(EncodeValue(RedactValue(a)), EncodeValue(RedactValue(b)), parent) <==> Resent(a, b)
    decreases a, 0
  {
    hide Same;
    var xs, ys := EncodeItems(RedactItems(a.items)), EncodeItems(RedactItems(b.items));
    forall i | 0 <= i < |xs| && i < |ys| ensures Same(xs[i], ys[i], "values") <==> Resent(a.items[i], b.items[i]) {
      EncodedItemAt(a.items, i);
      EncodedItemAt(b.items, i);
      ResentValues(a.items[i], b.items[i], "values");
    }
    SlicesAlike(xs, ys, parent);
  }

  lemma {:induction false} EncodedItemAt(items: seq<Value>, i: nat)
    requires i < |items|
    ensures EncodeItems(RedactItems(items))[i] == EncodeValue(RedactValue(items[i]))
  {
    if i > 0 {
      EncodedItemAt(items[1..], i - 1);
      assert RedactItems(items)[1..] == RedactItems(items[1..]);
    }
  }

  /** The entries with one key have the same canonical forms one by one exactly when the attributes are resent. */
  lemma {:induction false} ResentAt(es: seq<Attribute>, fs: seq<Attribute>, key: string, name: string)
    ensures ReorderedItems(Keyed(RedactedList(es), key), Keyed(RedactedList(fs), key), name) <==> ResentUnder(es, fs, key)
    decreases es, 1
  {
    hide Same, ReorderedItems;
    var us, vs := WithKey(es, key), WithKey(fs, key);
    var xs, ys := RedactedList(us), RedactedList(vs);
    KeyedList(es, key);
    KeyedList(fs, key);
    WithKeyMembers(es, key);
    WithKeyMembers(fs, key);
    forall k | 0 <= k < |us| && k < |vs|
      ensures us[k] in es && (Same(xs[k], ys[k], name) <==> IsSensitiveKey(key) || Resent(us[k].value, vs[k].value))
    {
      assert us[k] in us && vs[k] in vs;
      EntryAt(us, k);
      EntryAt(vs, k);
      if IsSensitiveKey(key) {
        assert xs[k] == ys[k];
        SameItself(xs[k], name);
      } else {
        EntriesAlike(key, EncodeValue(RedactValue(us[k].value)), key, EncodeValue(RedactValue(vs[k].value)), name);
        ResentValues(us[k].value, vs[k].value, "value");
      }
    }
    ListLength(us);
    ListLength(vs);
    ItemsAlike(xs, ys, name);
    NormalFormOfItems(xs, ys, name);
    MembersOf(es, us);
  }

  lemma SameItself(a: Json, parent: string)
    ensures Same(a, a, parent)
  {
  }

  lemma ListLength(es: seq<Attribute>)
    ensures |RedactedList(es)| == |es|
  {
  }

  lemma MembersOf(es: seq<Attribute>, us: seq<Attribute>)
    requires forall e :: e in us ==> e in es
    ensures forall k :: 0 <= k < |us| ==> us[k] in es
  {
  }

  /** Attribute lists differ, once redacted, only by their order exactly when one is the other sent again. */
  lemma {:induction false} ResentLists(es: seq<Attribute>, fs: seq<Attribute>, name: string)
    ensures ReorderedList(RedactedList(es), RedactedList(fs), name) <==> ResentMap(es, fs)
    ensures ResentMap(es, fs) ==> (es == [] <==> fs == [])
    decreases es, 2
  {
    forall key: string
      ensures ReorderedItems(Keyed(RedactedList(es), key), Keyed(RedactedList(fs), key), name) <==> ResentUnder(es, fs, key)
    {
      ResentAt(es, fs, key, name);
    }
    if ResentMap(es, fs) { ResentEmptiness(es, fs); }
  }

  lemma ResentEmptiness(es: seq<Attribute>, fs: seq<Attribute>)
    requires ResentMap(es, fs)
    ensures (es == []) == (fs == [])
  {
    if es != [] {
      WithKeyMembers(es, es[0].key);
      assert ResentUnder(es, fs, es[0].key) && es[0] in WithKey(es, es[0].key);
    }
    if fs != [] {
      WithKeyMembers(fs, fs[0].key);
      assert ResentUnder(es, fs, fs[0].key) && fs[0] in WithKey(fs, fs[0].key);
    }
  }

  // ----- What counts as sent again -----

  /** Everything is itself sent again, repeated keys and all. */
  lemma {:induction false} ResentItself(v: Value)
    ensures Resent(v, v)
  {
    match v
    case Map(es) => ResentMapItself(es);
    case Slice(xs) =>
      forall i | 0 <= i < |xs| ensures Resent(xs[i], xs[i]) {
        ResentItself(xs[i]);
      }
    case _ =>
  }

  lemma {:induction false} ResentMapItself(es: seq<Attribute>)
    ensures ResentMap(es, es)
  {
    forall key: string ensures ResentUnder(es, es, key) {
      var us := WithKey(es, key);
      WithKeyMembers(es, key);
      forall k | 0 <= k < |us| ensures us[k] in es && Resent(us[k].value, us[k].value) {
        assert us[k] in us;
        ResentItself(us[k].value);
      }
    }
  }

  /** An order that keeps the attributes of each key in theirs is as good as any other. */
  lemma ResentReordered(es: seq<Attribute>, fs: seq<Attribute>)
    requires forall key :: WithKey(es, key) == WithKey(fs, key)
    ensures ResentMap(es, fs)
  {
    ResentMapItself(es);
    forall key: string ensures ResentUnder(es, fs, key) {
      assert ResentUnder(es, es, key);
    }
  }

  /** Two neighbours with different keys may change places. */
  lemma ResentSwapped(before: seq<Attribute>, a: Attribute, b: Attribute, after: seq<Attribute>)
    requires a.key != b.key
    ensures ResentMap(before + [a, b] + after, before + [b, a] + after)
  {
    hide ResentMap;
    forall key: string ensures WithKey(before + [a, b] + after, key) == WithKey(before + [b, a] + after, key) {
      SwapUnder(a, b, key);
      WithKeyAppend(before + [a, b], after, key);
      WithKeyAppend(before, [a, b], key);
      WithKeyAppend(before + [b, a], after, key);
      WithKeyAppend(before, [b, a], key);
    }
    ResentReordered(before + [a, b] + after, before + [b, a] + after);
  }

  lemma SwapUnder(a: Attribute, b: Attribute, key: string)
    requires a.key != b.key
    ensures WithKey([a, b], key) == WithKey([b, a], key)
  {
    assert [a, b][1..] == [b] && [b, a][1..] == [a];
  }

  lemma Regroup(a: seq<Attribute>, b: seq<Attribute>, c: seq<Attribute>)
    ensures a + b + c == a + (b + c)
  {
  }

  lemma WithKeyFirst(es: seq<Attribute>, key: string)
    requires es != []
    ensures WithKey(es, key) == (if es[0].key == key then [es[0]] else []) + WithKey(es[1..], key)
  {
  }

  lemma {:induction false} WithKeyAppend(es: seq<Attribute>, fs: seq<Attribute>, key: string)
    ensures WithKey(es + fs, key) == WithKey(es, key) + WithKey(fs, key)
  {
    if es == [] {
      assert es + fs == fs;
    } else {
      WithKeyAppend(es[1..], fs, key);
      WithKeyFirst(es, key);
      WithKeyFirst(es + fs, key);
      hide WithKey;
      assert (es + fs)[1..] == es[1..] + fs && (es + fs)[0] == es[0];
      Regroup(if es[0].key == key then [es[0]] else [], WithKey(es[1..], key), WithKey(fs, key));
    }
  }
}
