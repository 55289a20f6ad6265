/**
 Sorting a key/value list asserts that its entries are objects. The assertion holds on every
 envelope the exporters build, so every record has a canonical payload.
 */
module EnvelopePanics {
  import opened Redaction
  import opened CanonicalJson
  import opened Envelope
  import opened Export

  lemma {:induction false} QuietConcat(fs: seq<Field>, gs: seq<Field>, parent: string)
    ensures FieldsPanic(fs + gs, parent) <==> FieldsPanic(fs, parent) || FieldsPanic(gs, parent)
  {
    if fs == [] {
      assert fs + gs == gs;
    } else {
      QuietConcat(fs[1..], gs, parent);
      assert (fs + gs)[1..] == fs[1..] + gs;
    }
  }

  lemma {:induction false} EncodedQuiet(v: Value, parent: string)
    ensures !Panics(EncodeValue(v), parent)
    decreases v, 1
  {
    match v
    case Map(entries) =>
      MapQuiet(entries, "values");
      WrappedQuiet("kvlistValue", EncodeMap(entries), parent);
    case Slice(items) =>
      ItemsQuiet(items, "values");
      WrappedQuiet("arrayValue", EncodeItems(items), parent);
    case Empty =>
    case Str(text) => SingleQuiet("stringValue", Json.Str(text), parent);
    case Bool(b) => SingleQuiet("boolValue", Json.Bool(b), parent);
    case Int(digits) => SingleQuiet("intValue", Json.Str(digits), parent);
    case Double(digits) => SingleQuiet("doubleValue", Number(digits), parent);
    case Bytes(base64) => SingleQuiet("bytesValue", Json.Str(base64), parent);
  }

  lemma SingleQuiet(name: string, value: Json, parent: string)
    requires !value.Arr? && !Panics(value, name)
    ensures !Panics(Single(name, value), parent)
  {
    PlainQuiet(name, value, parent);
  }

  lemma WrappedQuiet(name: string, items: seq<Json>, parent: string)
    requires name == "arrayValue" || (name == "kvlistValue" && forall e :: e in items ==> e.Obj?)
    requires !ItemsPanic(items, "values")
    ensures !Panics(Wrapped(name, items), parent)
  {
    if items == [] {
      SingleQuiet(name, Obj([]), parent);
    } else {
      var f := Field("values", Arr(items));
      assert !Panics(f.value, "values");
      assert !FieldsPanic([f][1..], name);
      assert !FieldsPanic([f], name);
      SingleQuiet(name, Obj([f]), parent);
    }
  }

  lemma {:induction false} ItemsQuiet(items: seq<Value>, parent: string)
    ensures !ItemsPanic(EncodeItems(items), parent)
    decreases items, 0
  {
    if items != [] {
      EncodedQuiet(items[0], parent);
      ItemsQuiet(items[1..], parent);
      assert EncodeItems(items)[1..] == EncodeItems(items[1..]);
    }
  }

  lemma EntryQuiet(key: string, value: Json, parent: string)
    requires !Panics(value, "value")
    ensures !Panics(Entry(key, value), parent)
  {
    var k, v := Field("key", Json.Str(key)), Field("value", value);
    PlainQuiet("key", k.value, parent);
    ValueQuiet(value, parent);
    QuietConcat([k], [v], parent);
    assert [k] + [v] == [k, v];
  }

  lemma ValueQuiet(value: Json, parent: string)
    requires !Panics(value, "value")
    ensures !FieldsPanic([Field("value", value)], parent)
  {
    assert !IsKeyValueList("value", parent);
  }

  /** An encoded attribute list holds objects only. */
  lemma {:induction false} MapQuiet(entries: seq<Attribute>, parent: string)
    ensures !ItemsPanic(EncodeMap(entries), parent)
    ensures forall e :: e in EncodeMap(entries) ==> e.Obj?
    decreases entries, 0
  {
    if entries != [] {
      EncodedQuiet(entries[0].value, "value");
      EntryQuiet(entries[0].key, EncodeValue(entries[0].value), parent);
      MapQuiet(entries[1..], parent);
      assert EncodeMap(entries)[1..] == EncodeMap(entries[1..]);
    }
  }

  lemma AttributesQuiet(name: string, es: seq<Attribute>, parent: string)
    ensures !FieldsPanic([Attributes(name, es)], parent)
  {
    MapQuiet(RedactMap(es), name);
  }

  lemma ArrayQuiet(name: string, items: seq<Json>, parent: string)
    requires !IsKeyValueList(name, parent) && !ItemsPanic(items, name)
    ensures !FieldsPanic([Field(name, Arr(items))], parent)
  {
  }

  lemma OneItemQuiet(name: string, x: Json, parent: string)
    requires !Panics(x, name)
    ensures !FieldsPanic([Field(name, Arr([x]))], parent)
  {
    assert !ItemsPanic([x], name);
  }

  lemma PlainQuiet(name: string, value: Json, parent: string)
    requires !value.Arr? && !Panics(value, name)
    ensures !FieldsPanic([Field(name, value)], parent)
  {
  }

  lemma ThreeQuiet(f: Field, g: Field, h: Field, parent: string)
    requires !FieldsPanic([f], parent) && !FieldsPanic([g], parent) && !FieldsPanic([h], parent)
    ensures !Panics(Obj([f, g, h]), parent)
  {
    QuietConcat([f], [g], parent);
    QuietConcat([f] + [g], [h], parent);
    assert [f] + [g] + [h] == [f, g, h];
  }

  lemma ScopeQuiet(s: Scope)
    ensures !Panics(ScopeJson(s), "scope")
  {
    AttributesQuiet("attributes", s.attributes, "scope");
    ThreeQuiet(Attributes("attributes", s.attributes), Field("name", Json.Str(s.name)), Field("version", Json.Str(s.version)), "scope");
  }

  lemma ScopeFieldsQuiet(list: string, s: Scope, record: Json, parent: string)
    requires !Panics(record, list)
    ensures !Panics(Obj(ScopeFields(list, s, record)), parent)
  {
    var records, url, scope := Field(list, Arr([record])), Field("schemaUrl", Json.Str(s.schemaUrl)), Field("scope", ScopeJson(s));
    OneItemQuiet(list, record, parent);
    ScopeQuiet(s);
    PlainQuiet("scope", ScopeJson(s), parent);
    PlainQuiet("schemaUrl", Json.Str(s.schemaUrl), parent);
    if Less(list, "schemaUrl") {
      ThreeQuiet(records, url, scope, parent);
    } else {
      ThreeQuiet(url, scope, records, parent);
    }
  }

  /** An envelope has a canonical form as soon as its record has one. */
  lemma EnvelopeQuiet(resources: string, scopes: string, list: string, resource: Resource, scope: Scope, record: Json)
    requires !Panics(record, list)
    ensures CanonicalPayload(EnvelopeJson(resources, scopes, list, resource, scope, record)).Some?
  {
    var inner := Obj(ScopeFields(list, scope, record));
    ScopeFieldsQuiet(list, scope, record, scopes);
    OneItemQuiet(scopes, inner, resources);
    AttributesQuiet("attributes", resource.attributes, "resource");
    PlainQuiet("resource", ResourceJson(resource), resources);
    PlainQuiet("schemaUrl", Json.Str(resource.schemaUrl), resources);
    var r, u, s := Field("resource", ResourceJson(resource)), Field("schemaUrl", Json.Str(resource.schemaUrl)), Field(scopes, Arr([inner]));
    ThreeQuiet(r, u, s, resources);
    OneItemQuiet(resources, Obj([r, u, s]), "");
  }

  /** Every log whose other fields are ordinary has a payload. */
  lemma LogHasPayload(i: Item<LogRecord>)
    requires !FieldsPanic(i.record.fields, "logRecords")
    ensures LogPayload(i).Some?
  {
    var a, b := Attributes("attributes", i.record.attributes), Field("body", EncodeValue(RedactValue(i.record.body)));
    AttributesQuiet("attributes", i.record.attributes, "logRecords");
    EncodedQuiet(RedactValue(i.record.body), "body");
    PlainQuiet("body", EncodeValue(RedactValue(i.record.body)), "logRecords");
    QuietConcat([a], [b], "logRecords");
    QuietConcat([a] + [b], i.record.fields, "logRecords");
    EnvelopeQuiet("resourceLogs", "scopeLogs", "logRecords", i.resource, i.scope, LogJson(i.record));
  }

  lemma {:induction false} EventsQuiet(es: seq<Event>, parent: string)
    requires forall k :: 0 <= k < |es| ==> !FieldsPanic(es[k].fields, parent)
    ensures !ItemsPanic(EventsJson(es), parent)
  {
    if es != [] {
      AttributesQuiet("attributes", es[0].attributes, parent);
      QuietConcat([Attributes("attributes", es[0].attributes)], es[0].fields, parent);
      EventsQuiet(es[1..], parent);
      assert EventsJson(es)[1..] == EventsJson(es[1..]);
    }
  }

  lemma FiveQuiet(a: Field, early: seq<Field>, e: Field, middle: seq<Field>, l: Field, late: seq<Field>, parent: string)
    requires !FieldsPanic([a], parent) && !FieldsPanic(early, parent) && !FieldsPanic([e], parent)
    requires !FieldsPanic(middle, parent) && !FieldsPanic([l], parent) && !FieldsPanic(late, parent)
    ensures !Panics(Obj([a] + early + [e] + middle + [l] + late), parent)
  {
    QuietConcat([a], early, parent);
    QuietConcat([a] + early, [e], parent);
    QuietConcat([a] + early + [e], middle, parent);
    QuietConcat([a] + early + [e] + middle, [l], parent);
    QuietConcat([a] + early + [e] + middle + [l], late, parent);
  }

  predicate QuietSpan(s: Span) {
    && !FieldsPanic(s.early, "spans") && !FieldsPanic(s.middle, "spans") && !FieldsPanic(s.late, "spans")
    && (forall k :: 0 <= k < |s.events| ==> !FieldsPanic(s.events[k].fields, "events"))
    && forall k :: 0 <= k < |s.links| ==> !FieldsPanic(s.links[k].fields, "links")
  }

  lemma SpanHasPayload(i: Item<Span>)
    requires QuietSpan(i.record)
    ensures SpanPayload(i).Some?
  {
    var s := i.record;
    AttributesQuiet("attributes", s.attributes, "spans");
    EventsQuiet(s.events, "events");
    EventsQuiet(s.links, "links");
    ArrayQuiet("events", EventsJson(s.events), "spans");
    ArrayQuiet("links", EventsJson(s.links), "spans");
    FiveQuiet(Attributes("attributes", s.attributes), s.early, Field("events", Arr(EventsJson(s.events))), s.middle,
              Field("links", Arr(EventsJson(s.links))), s.late, "spans");
    EnvelopeQuiet("resourceSpans", "scopeSpans", "spans", i.resource, i.scope, SpanJson(s));
  }

  lemma {:induction false} ExemplarsQuiet(xs: seq<Exemplar>, parent: string)
    requires forall k :: 0 <= k < |xs| ==> !FieldsPanic(xs[k].early, parent) && !FieldsPanic(xs[k].late, parent)
    ensures !ItemsPanic(ExemplarsJson(xs), parent)
  {
    if xs != [] {
      var f := Attributes("filteredAttributes", xs[0].filtered);
      AttributesQuiet("filteredAttributes", xs[0].filtered, parent);
      QuietConcat(xs[0].early, [f], parent);
      QuietConcat(xs[0].early + [f], xs[0].late, parent);
      ExemplarsQuiet(xs[1..], parent);
      assert ExemplarsJson(xs)[1..] == ExemplarsJson(xs[1..]);
    }
  }

  predicate QuietPoint(p: Point) {
    && !FieldsPanic(p.early, "dataPoints") && !FieldsPanic(p.late, "dataPoints")
    && !FieldsPanic(p.dataEarly, p.dataKey) && !FieldsPanic(p.dataLate, p.dataKey)
    && !FieldsPanic(p.before, "metrics") && !FieldsPanic(p.between, "metrics") && !FieldsPanic(p.after, "metrics")
    && forall k :: 0 <= k < |p.exemplars| ==>
         !FieldsPanic(p.exemplars[k].early, "exemplars") && !FieldsPanic(p.exemplars[k].late, "exemplars")
  }

  lemma PointQuiet(p: Point)
    requires QuietPoint(p)
    ensures !Panics(PointJson(p), "dataPoints")
  {
    var a, x := Attributes("attributes", p.attributes), Field("exemplars", Arr(ExemplarsJson(p.exemplars)));
    AttributesQuiet("attributes", p.attributes, "dataPoints");
    ExemplarsQuiet(p.exemplars, "exemplars");
    ArrayQuiet("exemplars", ExemplarsJson(p.exemplars), "dataPoints");
    QuietConcat([a], p.early, "dataPoints");
    QuietConcat([a] + p.early, [x], "dataPoints");
    QuietConcat([a] + p.early + [x], p.late, "dataPoints");
  }

  lemma DataQuiet(p: Point)
    requires QuietPoint(p)
    ensures !FieldsPanic([DataField(p)], "metrics")
  {
    var d := Field("dataPoints", Arr([PointJson(p)]));
    PointQuiet(p);
    OneItemQuiet("dataPoints", PointJson(p), p.dataKey);
    QuietConcat(p.dataEarly, [d], p.dataKey);
    QuietConcat(p.dataEarly + [d], p.dataLate, p.dataKey);
    PlainQuiet(p.dataKey, Obj(p.dataEarly + [d] + p.dataLate), "metrics");
  }

  lemma AroundTwoQuiet(before: seq<Field>, f: Field, between: seq<Field>, g: Field, after: seq<Field>, parent: string)
    requires !FieldsPanic(before, parent) && !FieldsPanic([f], parent) && !FieldsPanic(between, parent)
    requires !FieldsPanic([g], parent) && !FieldsPanic(after, parent)
    ensures !Panics(Obj(before + [f] + between + [g] + after), parent)
  {
    QuietConcat(before, [f], parent);
    QuietConcat(before + [f], between, parent);
    QuietConcat(before + [f] + between, [g], parent);
    QuietConcat(before + [f] + between + [g], after, parent);
  }

  lemma PointHasPayload(i: Item<Point>)
    requires QuietPoint(i.record)
    ensures PointPayload(i).Some?
  {
    var p := i.record;
    AttributesQuiet("metadata", p.metadata, "metrics");
    DataQuiet(p);
    QuietConcat(p.between, p.after, "metrics");
    if Less(p.dataKey, "metadata") {
      assert p.before + [DataField(p)] + [] == p.before + [DataField(p)];
      AroundTwoQuiet(p.before, DataField(p), [], Attributes("metadata", p.metadata), p.between + p.after, "metrics");
    } else {
      AroundTwoQuiet(p.before, Attributes("metadata", p.metadata), p.between, DataField(p), p.after, "metrics");
    }
    EnvelopeQuiet("resourceMetrics", "scopeMetrics", "metrics", i.resource, i.scope, MetricJson(p));
  }
}
