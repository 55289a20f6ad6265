/**
 Canonical form of an OTLP JSON payload. A JSON object is the list of its fields in the fixed key
 order in which it is encoded, so equal objects are equal values.
 */
module CanonicalJson {
  import opened Options

  datatype Json =
    | Null
    | Bool(b: bool)
    | Num(digits: string)
    | Str(text: string)
    | Arr(items: seq<Json>)
    | Obj(fields: seq<Field>)

  datatype Field = Field(name: string, value: Json)

  function Size(v: Json): nat {
    match v
    case Arr(xs) => 1 + SizeOfItems(xs)
    case Obj(fs) => 1 + SizeOfFields(fs)
    case _ => 1
  }

  function SizeOfItems(xs: seq<Json>): nat {
    if xs == [] then 0 else 1 + Size(xs[0]) + SizeOfItems(xs[1..])
  }

  function SizeOfFields(fs: seq<Field>): nat {
    if fs == [] then 0 else 2 + Size(fs[0].value) + SizeOfFields(fs[1..])
  }

  // ----- Sorting a key/value list -----

  /** The order of strings: by code point, which is also the order of their UTF-8 bytes. */
  predicate Less(a: string, b: string) {
    if b == "" then false
    else if a == "" then true
    else a[0] < b[0] || (a[0] == b[0] && Less(a[1..], b[1..]))
  }

  /** The strings agree up to k, where the first ends or has the smaller character. */
  ghost predicate LessAt(a: string, b: string, k: nat) {
    && k <= |a| && k < |b| && (forall i :: 0 <= i < k ==> a[i] == b[i])
    && (k < |a| ==> a[k] < b[k])
  }

  lemma {:induction false} LessRule(a: string, b: string)
    ensures Less(a, b) <==> exists k: nat :: LessAt(a, b, k)
  {
    if b != "" {
      if a == "" || a[0] < b[0] {
        assert LessAt(a, b, 0);
      } else if a[0] == b[0] {
        LessRule(a[1..], b[1..]);
        if k: nat :| LessAt(a[1..], b[1..], k) { LaterLess(a, b, k); }
        if k: nat :| LessAt(a, b, k) {
          assert k > 0;
          LaterLess(a, b, k - 1);
        }
      }
    }
  }

  lemma LaterLess(a: string, b: string, k: nat)
    requires a != "" && b != "" && a[0] == b[0]
    ensures LessAt(a, b, k + 1) <==> LessAt(a[1..], b[1..], k)
  {
    if k < |a[1..]| && k < |b[1..]| { assert a[1..][k] == a[k + 1] && b[1..][k] == b[k + 1]; }
    if LessAt(a[1..], b[1..], k) {
      forall i | 0 <= i < k + 1 ensures a[i] == b[i] {
        assert i > 0 ==> a[i] == a[1..][i - 1] && b[i] == b[1..][i - 1];
      }
    }
    if LessAt(a, b, k + 1) {
      assert forall i :: 0 <= i < k ==> a[1..][i] == a[i + 1] && b[1..][i] == b[i + 1];
    }
  }

  function FieldText(fs: seq<Field>, name: string): string {
    if fs == [] then ""
    else if fs[0].name == name then (if fs[0].value.Str? then fs[0].value.text else "")
    else FieldText(fs[1..], name)
  }

  /** The sort key of an entry: its "key" field when that is a string, and "" otherwise. */
  function EntryKey(entry: Json): string {
    if entry.Obj? then FieldText(entry.fields, "key") else ""
  }

  /** The first field of an object with a name. */
  ghost predicate IsFirstField(fs: seq<Field>, name: string, k: nat) {
    k < |fs| && fs[k].name == name && forall j :: 0 <= j < k ==> fs[j].name != name
  }

  /** What an entry is sorted by: the text of its first key, or "" when that is no text or there is none. */
  ghost predicate SortedUnder(entry: Json, key: string) {
    if entry.Obj? && exists k: nat :: IsFirstField(entry.fields, "key", k) && entry.fields[k].value.Str? then
      exists k: nat :: IsFirstField(entry.fields, "key", k) && entry.fields[k].value == Json.Str(key)
    else key == ""
  }

  lemma EntryKeyRule(entry: Json)
    ensures SortedUnder(entry, EntryKey(entry))
    ensures forall key :: SortedUnder(entry, key) ==> key == EntryKey(entry)
  {
    if entry.Obj? { FirstFieldText(entry.fields, "key"); }
  }

  lemma {:induction false} FirstFieldText(fs: seq<Field>, name: string)
    ensures (exists f :: f in fs && f.name == name) ==> exists k: nat :: IsFirstField(fs, name, k)
    ensures forall k: nat :: IsFirstField(fs, name, k) ==>
      FieldText(fs, name) == if fs[k].value.Str? then fs[k].value.text else ""
    ensures (forall k: nat :: !IsFirstField(fs, name, k)) ==> FieldText(fs, name) == ""
  {
    if fs != [] {
      if fs[0].name == name {
        assert IsFirstField(fs, name, 0);
      } else {
        FirstFieldText(fs[1..], name);
        forall k: nat ensures IsFirstField(fs[1..], name, k) <==> IsFirstField(fs, name, k + 1) {
          FirstFieldInRest(fs, name, k);
        }
        forall k: nat | IsFirstField(fs, name, k) ensures k > 0 && IsFirstField(fs[1..], name, k - 1) {
          FirstFieldInRest(fs, name, k - 1);
        }
      }
    }
  }

  lemma FirstFieldInRest(fs: seq<Field>, name: string, k: int)
    requires fs != [] && fs[0].name != name && k >= 0
    ensures IsFirstField(fs[1..], name, k) <==> IsFirstField(fs, name, k + 1)
  {
    if IsFirstField(fs[1..], name, k) {
      forall j | 0 <= j < k + 1 ensures fs[j].name != name {
        assert j > 0 ==> fs[j] == fs[1..][j - 1];
      }
    }
    if IsFirstField(fs, name, k + 1) {
      assert forall j :: 0 <= j < k ==> fs[1..][j] == fs[j + 1];
    }
  }

  function Insert(x: Json, sorted: seq<Json>): seq<Json> {
    if sorted == [] || !Less(EntryKey(sorted[0]), EntryKey(x)) then [x] + sorted
    else [sorted[0]] + Insert(x, sorted[1..])
  }

  function StableSort(xs: seq<Json>): (ys: seq<Json>)
    ensures SizeOfItems(ys) == SizeOfItems(xs)
  {
    if xs == [] then []
    else
      InsertSize(xs[0], StableSort(xs[1..]));
      Insert(xs[0], StableSort(xs[1..]))
  }

  lemma {:induction false} InsertSize(x: Json, sorted: seq<Json>)
    ensures SizeOfItems(Insert(x, sorted)) == 1 + Size(x) + SizeOfItems(sorted)
  {
    if sorted == [] || !Less(EntryKey(sorted[0]), EntryKey(x)) {
      assert ([x] + sorted)[1..] == sorted;
    } else {
      InsertSize(x, sorted[1..]);
      assert ([sorted[0]] + Insert(x, sorted[1..]))[1..] == Insert(x, sorted[1..]);
    }
  }

  // ----- Canonicalization -----

  /** The arrays that hold OTLP key/value lists. */
  predicate IsKeyValueList(name: string, parent: string) {
    name in {"attributes", "filteredAttributes", "metadata"} || (parent == "kvlistValue" && name == "values")
  }

  function Canonicalize(v: Json, parent: string): Json
    decreases Size(v)
  {
    match v
    case Arr(xs) => Arr(CanonicalItems(xs, parent))
    case Obj(fs) => Obj(CanonicalFields(fs, parent))
    case _ => v
  }

  function CanonicalItems(xs: seq<Json>, parent: string): (ys: seq<Json>)
    ensures |ys| == |xs|
    decreases SizeOfItems(xs)
  {
    if xs == [] then [] else [Canonicalize(xs[0], parent)] + CanonicalItems(xs[1..], parent)
  }

  function CanonicalFields(fs: seq<Field>, parent: string): (gs: seq<Field>)
    ensures |gs| == |fs|
    decreases SizeOfFields(fs)
  {
    if fs == [] then []
    else [Field(fs[0].name, CanonicalChild(fs[0], parent))] + CanonicalFields(fs[1..], parent)
  }

  /** A list is sorted before its entries are canonicalized under the name of the list. */
  function CanonicalChild(f: Field, parent: string): Json
    decreases 1 + Size(f.value)
  {
    var child := if IsKeyValueList(f.name, parent) && f.value.Arr? then Arr(StableSort(f.value.items)) else f.value;
    assert Size(child) == Size(f.value);
    Canonicalize(child, f.name)
  }

  /** Comparing an entry that is not an object stops the program; a list shorter than two is never compared. */
  predicate Panics(v: Json, parent: string)
    decreases Size(v)
  {
    match v
    case Arr(xs) => ItemsPanic(xs, parent)
    case Obj(fs) => FieldsPanic(fs, parent)
    case _ => false
  }

  predicate ItemsPanic(xs: seq<Json>, parent: string)
    decreases SizeOfItems(xs)
  {
    xs != [] && (Panics(xs[0], parent) || ItemsPanic(xs[1..], parent))
  }

  predicate FieldsPanic(fs: seq<Field>, parent: string)
    decreases SizeOfFields(fs)
  {
    && fs != []
    && (|| (IsKeyValueList(fs[0].name, parent) && fs[0].value.Arr? && |fs[0].value.items| > 1
            && exists e :: e in fs[0].value.items && !e.Obj?)
        || Panics(fs[0].value, fs[0].name)
        || FieldsPanic(fs[1..], parent))
  }

  /** The payload that is stored and hashed, or None when canonicalization panics. */
  function CanonicalPayload(v: Json): Option<Json> {
    if Panics(v, "") then None else Some(Canonicalize(v, ""))
  }

  // ----- When canonicalization panics -----

  datatype Node = Node(value: Json, parent: string)

  /** What stands below a value: the items of an array keep its parent name, a field gives its own. */
  function Child(n: Node, k: nat): Option<Node> {
    match n.value
    case Arr(xs) => if k < |xs| then Some(Node(xs[k], n.parent)) else None
    case Obj(fs) => if k < |fs| then Some(Node(fs[k].value, fs[k].name)) else None
    case _ => None
  }

  function At(n: Node, path: seq<nat>): Option<Node>
    decreases |path|
  {
    if path == [] then Some(n)
    else
      match Child(n, path[0])
      case Some(child) => At(child, path[1..])
      case None => None
  }

  /** A field of the object is a key/value list of several entries, and one of them is no object. */
  predicate HoldsUnsortable(n: Node) {
    n.value.Obj? && exists f :: f in n.value.fields && IsKeyValueList(f.name, n.parent) && Unsortable(f.value)
  }

  predicate Unsortable(list: Json) {
    list.Arr? && |list.items| > 1 && exists e :: e in list.items && !e.Obj?
  }

  ghost predicate UnsortableAt(n: Node, path: seq<nat>) {
    At(n, path).Some? && HoldsUnsortable(At(n, path).value)
  }

  /** A payload is refused exactly when somewhere in it a key/value list cannot be sorted. */
  lemma PanicRule(v: Json)
    ensures CanonicalPayload(v).None? <==> exists path :: UnsortableAt(Node(v, ""), path)
  {
    if Panics(v, "") { var path := PanicsSomewhere(v, ""); }
    forall path | UnsortableAt(Node(v, ""), path) ensures Panics(v, "") {
      SomewherePanics(v, "", path);
    }
  }

  lemma {:induction false} SomewherePanics(v: Json, parent: string, path: seq<nat>)
    requires UnsortableAt(Node(v, parent), path)
    ensures Panics(v, parent)
    decreases |path|
  {
    if path == [] {
      var f :| f in v.fields && IsKeyValueList(f.name, parent) && Unsortable(f.value);
      var k :| 0 <= k < |v.fields| && v.fields[k] == f;
      FieldsPanicAt(v.fields, parent, k);
    } else if v.Arr? {
      SomewherePanics(v.items[path[0]], parent, path[1..]);
      ItemsPanicAt(v.items, parent, path[0]);
    } else {
      var f := v.fields[path[0]];
      SomewherePanics(f.value, f.name, path[1..]);
      FieldsPanicAt(v.fields, parent, path[0]);
    }
  }

  lemma {:induction false} ItemsPanicAt(xs: seq<Json>, parent: string, k: nat)
    requires k < |xs| && Panics(xs[k], parent)
    ensures ItemsPanic(xs, parent)
  {
    if k > 0 { ItemsPanicAt(xs[1..], parent, k - 1); }
  }

  lemma {:induction false} FieldsPanicAt(fs: seq<Field>, parent: string, k: nat)
    requires k < |fs|
    requires Panics(fs[k].value, fs[k].name) || (IsKeyValueList(fs[k].name, parent) && Unsortable(fs[k].value))
    ensures FieldsPanic(fs, parent)
  {
    if k > 0 { FieldsPanicAt(fs[1..], parent, k - 1); }
  }

  lemma {:induction false} PanicsSomewhere(v: Json, parent: string) returns (path: seq<nat>)
    requires Panics(v, parent)
    ensures UnsortableAt(Node(v, parent), path)
    decreases Size(v)
  {
    match v
    case Arr(xs) =>
      var k, rest := ItemPanics(xs, parent);
      path := [k] + rest;
    case Obj(fs) =>
      var k, rest := FieldPanics(fs, parent);
      var f := fs[k];
      if IsKeyValueList(f.name, parent) && Unsortable(f.value) {
        assert f in fs;
        path := [];
      } else {
        path := [k] + rest;
      }
  }

  lemma {:induction false} ItemPanics(xs: seq<Json>, parent: string) returns (k: nat, path: seq<nat>)
    requires ItemsPanic(xs, parent)
    ensures k < |xs| && UnsortableAt(Node(xs[k], parent), path)
    decreases SizeOfItems(xs)
  {
    if Panics(xs[0], parent) {
      path := PanicsSomewhere(xs[0], parent);
      k := 0;
    } else {
      k, path := ItemPanics(xs[1..], parent);
      k := k + 1;
    }
  }

  lemma {:induction false} FieldPanics(fs: seq<Field>, parent: string) returns (k: nat, path: seq<nat>)
    requires FieldsPanic(fs, parent)
    ensures k < |fs|
    ensures UnsortableAt(Node(fs[k].value, fs[k].name), path) || (IsKeyValueList(fs[k].name, parent) && Unsortable(fs[k].value))
    decreases SizeOfFields(fs)
  {
    k, path := 0, [];
    if IsKeyValueList(fs[0].name, parent) && Unsortable(fs[0].value) {
    } else if Panics(fs[0].value, fs[0].name) {
      path := PanicsSomewhere(fs[0].value, fs[0].name);
    } else {
      k, path := FieldPanics(fs[1..], parent);
      k := k + 1;
    }
  }

  // ----- Payloads that differ only in the order of their key/value lists -----

  /** The entries with one key, in the order of the list. */
  function Keyed(xs: seq<Json>, key: string): (ys: seq<Json>)
    ensures SizeOfItems(ys) <= SizeOfItems(xs)
  {
    if xs == [] then []
    else if EntryKey(xs[0]) == key then
      assert ([xs[0]] + Keyed(xs[1..], key))[1..] == Keyed(xs[1..], key);
      [xs[0]] + Keyed(xs[1..], key)
    else Keyed(xs[1..], key)
  }

  ghost predicate Reordered(a: Json, b: Json, parent: string)
    decreases Size(a)
  {
    match (a, b)
    case (Arr(xs), Arr(ys)) => ReorderedItems(xs, ys, parent)
    case (Obj(fs), Obj(gs)) => ReorderedFields(fs, gs, parent)
    case _ => a == b
  }

  /** Arrays keep their length and order. */
  ghost predicate ReorderedItems(xs: seq<Json>, ys: seq<Json>, parent: string)
    decreases SizeOfItems(xs)
  {
    if xs == [] || ys == [] then xs == ys
    else Reordered(xs[0], ys[0], parent) && ReorderedItems(xs[1..], ys[1..], parent)
  }

  /** Key/value lists keep, for each key, the entries with that key and their relative order. */
  ghost predicate ReorderedList(xs: seq<Json>, ys: seq<Json>, parent: string)
    decreases SizeOfItems(xs) + 1
  {
    forall key: string :: ReorderedItems(Keyed(xs, key), Keyed(ys, key), parent)
  }

  ghost predicate ReorderedFields(fs: seq<Field>, gs: seq<Field>, parent: string)
    decreases SizeOfFields(fs)
  {
    if fs == [] || gs == [] then fs == gs
    else
      && fs[0].name == gs[0].name
      && (if IsKeyValueList(fs[0].name, parent) && fs[0].value.Arr? && gs[0].value.Arr? then
            assert Size(fs[0].value) == 1 + SizeOfItems(fs[0].value.items);
            ReorderedList(fs[0].value.items, gs[0].value.items, fs[0].name)
          else Reordered(fs[0].value, gs[0].value, fs[0].name))
      && ReorderedFields(fs[1..], gs[1..], parent)
  }

  // ----- Stable sorting is determined by the keyed subsequences -----

  lemma {:induction false} LessIsOrder(a: string, b: string)
    ensures !(Less(a, b) && Less(b, a))
    ensures Less(a, b) || Less(b, a) || a == b
  {
    if a != "" && b != "" && a[0] == b[0] {
      LessIsOrder(a[1..], b[1..]);
      assert a == [a[0]] + a[1..] && b == [b[0]] + b[1..];
    }
  }

  lemma {:induction false} LessTransitive(a: string, b: string, c: string)
    requires !Less(b, a) && !Less(c, b)
    ensures !Less(c, a)
  {
    if a != "" && b != "" && c != "" && a[0] == b[0] == c[0] {
      LessTransitive(a[1..], b[1..], c[1..]);
    }
  }

  /** Each entry is no larger than those after it. */
  predicate SortedByKey(xs: seq<Json>) {
    xs == [] || (SortedByKey(xs[1..]) && forall x :: x in xs[1..] ==> !Less(EntryKey(x), EntryKey(xs[0])))
  }

  lemma {:induction false} InsertKeeps(x: Json, sorted: seq<Json>)
    ensures forall y :: y in Insert(x, sorted) <==> y == x || y in sorted
    ensures forall key :: Keyed(Insert(x, sorted), key) == Keyed([x] + sorted, key)
  {
    if sorted != [] && Less(EntryKey(sorted[0]), EntryKey(x)) {
      var rest := Insert(x, sorted[1..]);
      InsertKeeps(x, sorted[1..]);
      LessIsOrder(EntryKey(sorted[0]), EntryKey(x));
      assert ([sorted[0]] + rest)[1..] == rest;
      assert ([x] + sorted)[1..] == sorted;
      assert ([x] + sorted[1..])[1..] == sorted[1..];
    }
  }

  lemma {:induction false} InsertSorts(x: Json, sorted: seq<Json>)
    requires SortedByKey(sorted)
    ensures SortedByKey(Insert(x, sorted))
  {
    if sorted == [] {
    } else if !Less(EntryKey(sorted[0]), EntryKey(x)) {
      assert ([x] + sorted)[1..] == sorted;
      forall y | y in sorted ensures !Less(EntryKey(y), EntryKey(x)) {
        LessIsOrder(EntryKey(sorted[0]), EntryKey(sorted[0]));
        LessTransitive(EntryKey(x), EntryKey(sorted[0]), EntryKey(y));
      }
    } else {
      var rest := Insert(x, sorted[1..]);
      InsertSorts(x, sorted[1..]);
      InsertKeeps(x, sorted[1..]);
      LessIsOrder(EntryKey(sorted[0]), EntryKey(x));
      assert ([sorted[0]] + rest)[1..] == rest;
    }
  }

  lemma {:induction false} StableSortKeeps(xs: seq<Json>)
    ensures SortedByKey(StableSort(xs))
    ensures forall key :: Keyed(StableSort(xs), key) == Keyed(xs, key)
  {
    if xs != [] {
      var rest := StableSort(xs[1..]);
      StableSortKeeps(xs[1..]);
      InsertSorts(xs[0], rest);
      InsertKeeps(xs[0], rest);
      assert ([xs[0]] + rest)[1..] == rest;
    }
  }

  lemma {:induction false} KeyedMembers(xs: seq<Json>, key: string)
    ensures forall x :: x in Keyed(xs, key) <==> x in xs && EntryKey(x) == key
  {
    if xs != [] {
      KeyedMembers(xs[1..], key);
    }
  }

  /** A sorted list is determined by its keyed subsequences. */
  lemma {:induction false} SortedIsUnique(xs: seq<Json>, ys: seq<Json>)
    requires SortedByKey(xs) && SortedByKey(ys)
    requires forall key :: Keyed(xs, key) == Keyed(ys, key)
    ensures xs == ys
  {
    if xs == [] {
      if ys != [] {
        KeyedMembers(ys, EntryKey(ys[0]));
        assert false;
      }
    } else {
      var kx := EntryKey(xs[0]);
      KeyedMembers(xs, kx);
      KeyedMembers(ys, kx);
      assert xs[0] in Keyed(xs, kx);
      assert ys != [];
      SameHead(xs, ys);
      forall key ensures Keyed(xs[1..], key) == Keyed(ys[1..], key) {
        assert Keyed(xs, key) == Keyed(ys, key);
        if key == kx {
          assert Keyed(xs[1..], key) == Keyed(xs, key)[1..];
          assert Keyed(ys[1..], key) == Keyed(ys, key)[1..];
        }
      }
      SortedIsUnique(xs[1..], ys[1..]);
      assert xs == [xs[0]] + xs[1..] && ys == [ys[0]] + ys[1..];
    }
  }

  lemma SameHead(xs: seq<Json>, ys: seq<Json>)
    requires SortedByKey(xs) && SortedByKey(ys) && xs != [] && ys != []
    requires forall key :: Keyed(xs, key) == Keyed(ys, key)
    ensures xs[0] == ys[0]
  {
    var kx, ky := EntryKey(xs[0]), EntryKey(ys[0]);
    KeyedMembers(xs, ky);
    KeyedMembers(ys, kx);
    assert xs[0] in Keyed(xs, kx) && ys[0] in Keyed(ys, ky);
    assert xs[0] in ys && ys[0] in xs;
    assert !Less(kx, ky) || xs[0] == ys[0];
    assert !Less(ky, kx) || xs[0] == ys[0];
    LessIsOrder(kx, ky);
    assert Keyed(xs, kx)[0] == xs[0] && Keyed(ys, ky)[0] == ys[0];
  }

  // ----- Canonical entries keep their keys -----

  lemma CanonicalShape(f: Field, parent: string)
    ensures CanonicalChild(f, parent).Str? <==> f.value.Str?
    ensures CanonicalChild(f, parent).Arr? <==> f.value.Arr?
    ensures f.value.Str? ==> CanonicalChild(f, parent) == f.value
  {
  }

  lemma {:induction false} CanonicalText(fs: seq<Field>, parent: string, name: string)
    ensures FieldText(CanonicalFields(fs, parent), name) == FieldText(fs, name)
  {
    if fs != [] {
      CanonicalShape(fs[0], parent);
      CanonicalText(fs[1..], parent, name);
    }
  }

  lemma CanonicalKey(x: Json, parent: string)
    ensures EntryKey(Canonicalize(x, parent)) == EntryKey(x)
  {
    if x.Obj? {
      CanonicalText(x.fields, parent, "key");
    }
  }

  lemma {:induction false} CanonicalKeyed(xs: seq<Json>, parent: string, key: string)
    ensures Keyed(CanonicalItems(xs, parent), key) == CanonicalItems(Keyed(xs, key), parent)
  {
    if xs != [] {
      CanonicalKey(xs[0], parent);
      CanonicalKeyed(xs[1..], parent, key);
      var rest := CanonicalItems(xs[1..], parent);
      assert ([Canonicalize(xs[0], parent)] + rest)[1..] == rest;
      assert ([xs[0]] + Keyed(xs[1..], key))[1..] == Keyed(xs[1..], key);
    }
  }

  lemma {:induction false} CanonicalMember(xs: seq<Json>, parent: string, y: Json)
    requires y in CanonicalItems(xs, parent)
    ensures exists x :: x in xs && EntryKey(x) == EntryKey(y)
  {
    CanonicalKey(xs[0], parent);
    if y != Canonicalize(xs[0], parent) {
      CanonicalMember(xs[1..], parent, y);
    }
  }

  lemma {:induction false} CanonicalSorted(xs: seq<Json>, parent: string)
    requires SortedByKey(xs)
    ensures SortedByKey(CanonicalItems(xs, parent))
  {
    if xs != [] {
      var ys := CanonicalItems(xs, parent);
      CanonicalSorted(xs[1..], parent);
      CanonicalKey(xs[0], parent);
      assert ys[1..] == CanonicalItems(xs[1..], parent);
      forall y | y in ys[1..] ensures !Less(EntryKey(y), EntryKey(ys[0])) {
        CanonicalMember(xs[1..], parent, y);
      }
    }
  }

  ghost predicate KeyedAlike(xs: seq<Json>, ys: seq<Json>, parent: string) {
    forall key: string :: CanonicalItems(Keyed(xs, key), parent) == CanonicalItems(Keyed(ys, key), parent)
  }

  lemma CanonicalList(xs: seq<Json>, ys: seq<Json>, parent: string)
    ensures CanonicalItems(StableSort(xs), parent) == CanonicalItems(StableSort(ys), parent) <==> KeyedAlike(xs, ys, parent)
  {
    var cx, cy := CanonicalItems(StableSort(xs), parent), CanonicalItems(StableSort(ys), parent);
    StableSortKeeps(xs);
    StableSortKeeps(ys);
    CanonicalSorted(StableSort(xs), parent);
    CanonicalSorted(StableSort(ys), parent);
    forall key: string
      ensures Keyed(cx, key) == CanonicalItems(Keyed(xs, key), parent)
      ensures Keyed(cy, key) == CanonicalItems(Keyed(ys, key), parent)
    {
      CanonicalKeyed(StableSort(xs), parent, key);
      CanonicalKeyed(StableSort(ys), parent, key);
    }
    if KeyedAlike(xs, ys, parent) {
      forall key: string ensures Keyed(cx, key) == Keyed(cy, key) {
        assert CanonicalItems(Keyed(xs, key), parent) == CanonicalItems(Keyed(ys, key), parent);
      }
      SortedIsUnique(cx, cy);
    }
  }

  // ----- The canonical form is a normal form -----

  /**
   Two payloads have the same canonical form exactly when they differ only by reordering key/value
   lists, at any depth, without changing the relative order of entries with equal keys.
   */
  lemma {:induction false} NormalForm(a: Json, b: Json, parent: string)
    ensures Canonicalize(a, parent) == Canonicalize(b, parent) <==> Reordered(a, b, parent)
    decreases Size(a)
  {
    match (a, b)
    case (Arr(xs), Arr(ys)) => NormalFormOfItems(xs, ys, parent);
    case (Obj(fs), Obj(gs)) => NormalFormOfFields(fs, gs, parent);
    case _ =>
  }

  lemma {:induction false} NormalFormOfItems(xs: seq<Json>, ys: seq<Json>, parent: string)
    ensures CanonicalItems(xs, parent) == CanonicalItems(ys, parent) <==> ReorderedItems(xs, ys, parent)
    decreases SizeOfItems(xs)
  {
    if xs != [] && ys != [] {
      NormalForm(xs[0], ys[0], parent);
      NormalFormOfItems(xs[1..], ys[1..], parent);
      var cx, cy := CanonicalItems(xs, parent), CanonicalItems(ys, parent);
      assert cx[1..] == CanonicalItems(xs[1..], parent) && cy[1..] == CanonicalItems(ys[1..], parent);
    }
  }

  lemma {:induction false} NormalFormOfFields(fs: seq<Field>, gs: seq<Field>, parent: string)
    ensures CanonicalFields(fs, parent) == CanonicalFields(gs, parent) <==> ReorderedFields(fs, gs, parent)
    decreases SizeOfFields(fs)
  {
    if fs != [] && gs != [] {
      NormalFormOfFields(fs[1..], gs[1..], parent);
      var cf, cg := CanonicalFields(fs, parent), CanonicalFields(gs, parent);
      assert cf[1..] == CanonicalFields(fs[1..], parent) && cg[1..] == CanonicalFields(gs[1..], parent);
      if fs[0].name == gs[0].name {
        NormalFormOfChild(fs[0], gs[0], parent);
      }
    }
  }

  lemma {:induction false} NormalFormOfChild(f: Field, g: Field, parent: string)
    requires f.name == g.name
    ensures CanonicalChild(f, parent) == CanonicalChild(g, parent)
      <==> if IsKeyValueList(f.name, parent) && f.value.Arr? && g.value.Arr? then
             ReorderedList(f.value.items, g.value.items, f.name)
           else Reordered(f.value, g.value, f.name)
    decreases 1 + Size(f.value)
  {
    if IsKeyValueList(f.name, parent) && f.value.Arr? && g.value.Arr? {
      var xs, ys := f.value.items, g.value.items;
      CanonicalList(xs, ys, f.name);
      forall key: string
        ensures CanonicalItems(Keyed(xs, key), f.name) == CanonicalItems(Keyed(ys, key), f.name)
          <==> ReorderedItems(Keyed(xs, key), Keyed(ys, key), f.name)
      {
        NormalFormOfItems(Keyed(xs, key), Keyed(ys, key), f.name);
      }
    } else if f.value.Arr? <==> g.value.Arr? {
      NormalForm(f.value, g.value, f.name);
    } else {
      CanonicalShape(f, parent);
      CanonicalShape(g, parent);
    }
  }

  lemma SortedStaysSorted(xs: seq<Json>)
    requires SortedByKey(xs)
    ensures StableSort(xs) == xs
  {
    StableSortKeeps(xs);
    SortedIsUnique(StableSort(xs), xs);
  }

  /** A canonical payload is its own canonical form. */
  lemma {:induction false} CanonicalIsIdempotent(v: Json, parent: string)
    ensures Canonicalize(Canonicalize(v, parent), parent) == Canonicalize(v, parent)
    decreases Size(v)
  {
    match v
    case Arr(xs) => CanonicalItemsIdempotent(xs, parent);
    case Obj(fs) => CanonicalFieldsIdempotent(fs, parent);
    case _ =>
  }

  lemma {:induction false} CanonicalItemsIdempotent(xs: seq<Json>, parent: string)
    ensures CanonicalItems(CanonicalItems(xs, parent), parent) == CanonicalItems(xs, parent)
    decreases SizeOfItems(xs)
  {
    if xs != [] {
      CanonicalIsIdempotent(xs[0], parent);
      CanonicalItemsIdempotent(xs[1..], parent);
      assert CanonicalItems(xs, parent)[1..] == CanonicalItems(xs[1..], parent);
    }
  }

  lemma {:induction false} CanonicalFieldsIdempotent(fs: seq<Field>, parent: string)
    ensures CanonicalFields(CanonicalFields(fs, parent), parent) == CanonicalFields(fs, parent)
    decreases SizeOfFields(fs)
  {
    if fs != [] {
      var f := fs[0];
      var child := CanonicalChild(f, parent);
      CanonicalFieldsIdempotent(fs[1..], parent);
      assert CanonicalFields(fs, parent)[1..] == CanonicalFields(fs[1..], parent);
      CanonicalShape(f, parent);
      if IsKeyValueList(f.name, parent) && f.value.Arr? {
        var xs := StableSort(f.value.items);
        assert Size(f.value) == 1 + SizeOfItems(xs);
        StableSortKeeps(f.value.items);
        CanonicalSorted(xs, f.name);
        SortedStaysSorted(CanonicalItems(xs, f.name));
        CanonicalItemsIdempotent(xs, f.name);
      } else {
        CanonicalIsIdempotent(f.value, f.name);
      }
      assert CanonicalChild(Field(f.name, child), parent) == child;
    }
  }

  // ----- What reordering means for a list -----

  predicate DistinctKeys(xs: seq<Json>) {
    forall i, j :: 0 <= i < j < |xs| ==> EntryKey(xs[i]) != EntryKey(xs[j])
  }

  /** Lists with the same keyed subsequences hold the same entries the same number of times. */
  lemma SameKeyedIsPermutation(xs: seq<Json>, ys: seq<Json>)
    requires forall key: string :: Keyed(xs, key) == Keyed(ys, key)
    ensures multiset(xs) == multiset(ys)
  {
    StableSortKeeps(xs);
    StableSortKeeps(ys);
    SortedIsUnique(StableSort(xs), StableSort(ys));
    SortPermutes(xs);
    SortPermutes(ys);
  }

  lemma {:induction false} SortPermutes(xs: seq<Json>)
    ensures multiset(StableSort(xs)) == multiset(xs)
  {
    if xs != [] {
      SortPermutes(xs[1..]);
      InsertPermutes(xs[0], StableSort(xs[1..]));
      assert xs == [xs[0]] + xs[1..];
    }
  }

  lemma {:induction false} InsertPermutes(x: Json, sorted: seq<Json>)
    ensures multiset(Insert(x, sorted)) == multiset{x} + multiset(sorted)
  {
    if sorted != [] && Less(EntryKey(sorted[0]), EntryKey(x)) {
      InsertPermutes(x, sorted[1..]);
      assert sorted == [sorted[0]] + sorted[1..];
    }
  }

  lemma {:induction false} KeyedAtMostOne(xs: seq<Json>, key: string)
    requires DistinctKeys(xs)
    ensures |Keyed(xs, key)| <= 1
  {
    if xs != [] {
      KeyedAtMostOne(xs[1..], key);
      KeyedMembers(xs[1..], key);
      assert forall x :: x in xs[1..] ==> EntryKey(x) != EntryKey(xs[0]);
      if EntryKey(xs[0]) == key {
        assert forall x :: x !in Keyed(xs[1..], key);
        SmallSeqs(Keyed(xs[1..], key), []);
      }
    }
  }

  lemma SmallSeqs<T>(s: seq<T>, t: seq<T>)
    requires |s| <= 1 && |t| <= 1 && forall x :: x in s <==> x in t
    ensures s == t
  {
    assert s != [] ==> s[0] in t;
    assert t != [] ==> t[0] in s;
  }

  /** When keys are distinct, any permutation of a list has the same keyed subsequences. */
  lemma PermutationKeepsKeyed(xs: seq<Json>, ys: seq<Json>, key: string)
    requires DistinctKeys(xs) && DistinctKeys(ys) && multiset(xs) == multiset(ys)
    ensures Keyed(xs, key) == Keyed(ys, key)
  {
    KeyedAtMostOne(xs, key);
    KeyedAtMostOne(ys, key);
    forall x ensures x in Keyed(xs, key) <==> x in Keyed(ys, key) {
      KeyedMembers(xs, key);
      KeyedMembers(ys, key);
      assert x in xs <==> x in multiset(xs);
      assert x in ys <==> x in multiset(ys);
    }
    SmallSeqs(Keyed(xs, key), Keyed(ys, key));
  }

  /** Entries with equal keys are told apart by their order: swapping them changes the canonical form. */
  lemma EqualKeysKeepTheirOrder(a: Json, b: Json)
    requires EntryKey(a) == EntryKey(b) && Canonicalize(a, "attributes") != Canonicalize(b, "attributes")
    ensures Canonicalize(Obj([Field("attributes", Arr([a, b]))]), "")
      != Canonicalize(Obj([Field("attributes", Arr([b, a]))]), "")
  {
    var key := EntryKey(a);
    LessIsOrder(key, key);
    assert [a, b][1..] == [b] && [b, a][1..] == [a];
    assert StableSort([b]) == [b] && StableSort([a]) == [a];
    assert StableSort([a, b]) == Insert(a, [b]) == [a, b];
    assert StableSort([b, a]) == Insert(b, [a]) == [b, a];
    TwoEntries(a, b);
    TwoEntries(b, a);
  }

  /** A list that sorting leaves alone keeps its first entry first. */
  lemma TwoEntries(a: Json, b: Json)
    requires StableSort([a, b]) == [a, b]
    ensures var c := Canonicalize(Obj([Field("attributes", Arr([a, b]))]), "");
      c.Obj? && |c.fields| == 1 && c.fields[0].value.Arr? && |c.fields[0].value.items| == 2
      && c.fields[0].value.items[0] == Canonicalize(a, "attributes")
  {
    hide StableSort;
    var f := Field("attributes", Arr([a, b]));
    assert IsKeyValueList("attributes", "");
    assert CanonicalChild(f, "") == Arr(CanonicalItems([a, b], "attributes"));
  }
}
