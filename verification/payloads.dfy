/**
 What two payloads have in common. The envelope of a record is compared part by part: attributes and
 values as if sent again, every other field by its canonical form.
 */
module Payloads {
  import opened Redaction
  import opened CanonicalJson
  import opened Envelope
  import opened Export

  // ----- Lists of fields -----

  predicate Absent(fs: seq<Field>, name: string) {
    forall i :: 0 <= i < |fs| ==> fs[i].name != name
  }

  lemma SameConcat(fs: seq<Field>, gs: seq<Field>, fs': seq<Field>, gs': seq<Field>, parent: string)
    requires |fs| == |gs|
    ensures SameAll(fs + fs', gs + gs', parent) <==> SameAll(fs, gs, parent) && SameAll(fs', gs', parent)
  {
    hide SameField;
    var xs, ys := fs + fs', gs + gs';
    if SameAll(xs, ys, parent) {
      forall k | 0 <= k < |fs| ensures SameField(fs[k], gs[k], parent) { assert SameField(xs[k], ys[k], parent); }
      forall k | 0 <= k < |fs'| ensures SameField(fs'[k], gs'[k], parent) {
        assert SameField(xs[|fs| + k], ys[|fs| + k], parent);
      }
    }
    if SameAll(fs, gs, parent) && SameAll(fs', gs', parent) {
      forall k | 0 <= k < |xs| ensures SameField(xs[k], ys[k], parent) {
        if k < |fs| {
          assert SameField(fs[k], gs[k], parent);
        } else {
          assert SameField(fs'[k - |fs|], gs'[k - |fs|], parent);
        }
      }
    }
  }

  lemma SameOne(f: Field, g: Field, parent: string)
    ensures SameAll([f], [g], parent) <==> SameField(f, g, parent)
  {
    assert SameAll([f], [g], parent) ==> SameField([f][0], [g][0], parent);
  }

  /** A field that stands alone under its name is compared with the field of that name, and what is around it with what is around that. */
  lemma SameAround(fs: seq<Field>, f: Field, rest: seq<Field>, gs: seq<Field>, g: Field, rest': seq<Field>, parent: string)
    requires f.name == g.name
    ensures SameAll(fs, gs, parent) && SameField(f, g, parent) && SameAll(rest, rest', parent)
      ==> SameAll(fs + [f] + rest, gs + [g] + rest', parent)
    ensures Absent(fs, f.name) && Absent(gs, f.name) && SameAll(fs + [f] + rest, gs + [g] + rest', parent)
      ==> SameAll(fs, gs, parent) && SameField(f, g, parent) && SameAll(rest, rest', parent)
  {
    hide SameField;
    if Absent(fs, f.name) && Absent(gs, f.name) && SameAll(fs + [f] + rest, gs + [g] + rest', parent) {
      SamePlace(fs, f, rest, gs, g, rest', parent);
    }
    if |fs| == |gs| {
      SameConcat(fs + [f], gs + [g], rest, rest', parent);
      SameConcat(fs, gs, [f], [g], parent);
      SameOne(f, g, parent);
    }
  }

  lemma FirstOfName(fs: seq<Field>, f: Field, rest: seq<Field>)
    requires Absent(fs, f.name)
    ensures var xs := fs + [f] + rest; xs[|fs|].name == f.name && forall i :: 0 <= i < |fs| ==> xs[i].name != f.name
  {
  }

  lemma SamePlace(fs: seq<Field>, f: Field, rest: seq<Field>, gs: seq<Field>, g: Field, rest': seq<Field>, parent: string)
    requires f.name == g.name && Absent(fs, f.name) && Absent(gs, f.name)
    requires SameAll(fs + [f] + rest, gs + [g] + rest', parent)
    ensures |fs| == |gs|
  {
    var xs, ys := fs + [f] + rest, gs + [g] + rest';
    FirstOfName(fs, f, rest);
    FirstOfName(gs, g, rest');
    assert SameField(xs[|fs|], ys[|fs|], parent);
    assert SameField(xs[|gs|], ys[|gs|], parent);
  }

  // ----- Attributes, resources, scopes -----

  lemma AttributesAlike(name: string, es: seq<Attribute>, fs: seq<Attribute>, parent: string)
    requires IsKeyValueList(name, parent)
    ensures SameField(Attributes(name, es), Attributes(name, fs), parent) <==> ResentMap(es, fs)
  {
    ResentLists(es, fs, name);
    ListField(name, RedactedList(es), RedactedList(fs), parent);
  }

  /** An array of records that is no key/value list. */
  lemma ArrayFieldsAlike(name: string, xs: seq<Json>, ys: seq<Json>, parent: string)
    requires PlainName(name)
    ensures SameField(Field(name, Arr(xs)), Field(name, Arr(ys)), parent) <==> SameEach(xs, ys, name)
  {
    PlainField(name, Arr(xs), Arr(ys), parent);
    ArraysAlike(xs, ys, name);
  }

  lemma OneItemAlike(name: string, x: Json, y: Json, parent: string)
    requires PlainName(name)
    ensures SameField(Field(name, Arr([x])), Field(name, Arr([y])), parent) <==> Same(x, y, name)
  {
    ArrayFieldsAlike(name, [x], [y], parent);
    assert SameEach([x], [y], name) ==> Same([x][0], [y][0], name);
  }

  lemma TextFieldsAlike(name: string, a: string, b: string, parent: string)
    requires PlainName(name)
    ensures SameField(Field(name, Json.Str(a)), Field(name, Json.Str(b)), parent) <==> a == b
  {
    PlainField(name, Json.Str(a), Json.Str(b), parent);
    TextsAlike(a, b, name);
  }

  /** The resource and the scope sent again. */
  ghost predicate ResentContext<R>(i: Item<R>, j: Item<R>) {
    && ResentMap(i.resource.attributes, j.resource.attributes) && i.resource.schemaUrl == j.resource.schemaUrl
    && ResentScope(i.scope, j.scope)
  }

  ghost predicate ResentScope(s: Scope, s': Scope) {
    ResentMap(s.attributes, s'.attributes) && s == s'.(attributes := s.attributes)
  }

  lemma ResourcesAlike(r: Resource, r': Resource, parent: string)
    ensures Same(ResourceJson(r), ResourceJson(r'), parent) <==> ResentMap(r.attributes, r'.attributes)
  {
    AttributesAlike("attributes", r.attributes, r'.attributes, parent);
    OneField(Attributes("attributes", r.attributes), Attributes("attributes", r'.attributes), parent);
  }

  lemma ScopesAlike(s: Scope, s': Scope, parent: string)
    ensures Same(ScopeJson(s), ScopeJson(s'), parent)
      <==> ResentMap(s.attributes, s'.attributes) && s.name == s'.name && s.version == s'.version
  {
    hide ResentMap, Same, SameField, Attributes;
    AttributesAlike("attributes", s.attributes, s'.attributes, parent);
    TextFieldsAlike("name", s.name, s'.name, parent);
    TextFieldsAlike("version", s.version, s'.version, parent);
    ThreeFields(Attributes("attributes", s.attributes), Attributes("attributes", s'.attributes),
                Field("name", Json.Str(s.name)), Field("name", Json.Str(s'.name)),
                Field("version", Json.Str(s.version)), Field("version", Json.Str(s'.version)), parent);
  }

  lemma ScopeFieldsAlike(list: string, s: Scope, s': Scope, x: Json, y: Json, parent: string)
    requires PlainName(list)
    ensures Same(Obj(ScopeFields(list, s, x)), Obj(ScopeFields(list, s', y)), parent) <==> ResentScope(s, s') && Same(x, y, list)
  {
    hide ResentMap, Same, SameField, ScopeJson;
    var records, records' := Field(list, Arr([x])), Field(list, Arr([y]));
    var url, url' := Field("schemaUrl", Json.Str(s.schemaUrl)), Field("schemaUrl", Json.Str(s'.schemaUrl));
    var scope, scope' := Field("scope", ScopeJson(s)), Field("scope", ScopeJson(s'));
    OneItemAlike(list, x, y, parent);
    TextFieldsAlike("schemaUrl", s.schemaUrl, s'.schemaUrl, parent);
    ScopesAlike(s, s', "scope");
    PlainField("scope", ScopeJson(s), ScopeJson(s'), parent);
    if Less(list, "schemaUrl") {
      ThreeFields(records, records', url, url', scope, scope', parent);
    } else {
      ThreeFields(url, url', scope, scope', records, records', parent);
    }
  }

  /** Two envelopes have the same canonical form exactly when resource, scope and record have. */
  lemma EnvelopesAlike<R>(resources: string, scopes: string, list: string, i: Item<R>, j: Item<R>, x: Json, y: Json)
    requires PlainName(resources) && PlainName(scopes) && PlainName(list)
    ensures Same(EnvelopeJson(resources, scopes, list, i.resource, i.scope, x),
                 EnvelopeJson(resources, scopes, list, j.resource, j.scope, y), "")
      <==> ResentContext(i, j) && Same(x, y, list)
  {
    hide ResentMap, Same, SameField, ResourceJson, ScopeFields;
    ScopeFieldsAlike(list, i.scope, j.scope, x, y, scopes);
    var p, q := Obj(ScopeFields(list, i.scope, x)), Obj(ScopeFields(list, j.scope, y));
    OneItemAlike(scopes, p, q, resources);
    ResourcesAlike(i.resource, j.resource, "resource");
    PlainField("resource", ResourceJson(i.resource), ResourceJson(j.resource), resources);
    TextFieldsAlike("schemaUrl", i.resource.schemaUrl, j.resource.schemaUrl, resources);
    var url, url' := Field("schemaUrl", Json.Str(i.resource.schemaUrl)), Field("schemaUrl", Json.Str(j.resource.schemaUrl));
    var r, r' := Field("resource", ResourceJson(i.resource)), Field("resource", ResourceJson(j.resource));
    var c, c' := Field(scopes, Arr([p])), Field(scopes, Arr([q]));
    ThreeFields(r, r', url, url', c, c', resources);
    OneItemAlike(resources, Obj([r, url, c]), Obj([r', url', c']), "");
    OneField(Field(resources, Arr([Obj([r, url, c])])), Field(resources, Arr([Obj([r', url', c'])])), "");
  }

  // ----- Logs -----

  /** A log sent again: attributes and body as values, every other encoded field by its canonical form. */
  ghost predicate ResentLog(i: Item<LogRecord>, j: Item<LogRecord>) {
    && ResentContext(i, j)
    && ResentMap(i.record.attributes, j.record.attributes) && Resent(i.record.body, j.record.body)
    && SameAll(i.record.fields, j.record.fields, "logRecords")
  }

  lemma LogsAlike(r: LogRecord, r': LogRecord, parent: string)
    ensures Same(LogJson(r), LogJson(r'), parent)
      <==> ResentMap(r.attributes, r'.attributes) && Resent(r.body, r'.body) && SameAll(r.fields, r'.fields, parent)
  {
    hide ResentMap, Resent, Same, SameField, SameAll, Attributes;
    var a, a' := Attributes("attributes", r.attributes), Attributes("attributes", r'.attributes);
    var b, b' := Field("body", EncodeValue(RedactValue(r.body))), Field("body", EncodeValue(RedactValue(r'.body)));
    AttributesAlike("attributes", r.attributes, r'.attributes, parent);
    ResentValues(r.body, r'.body, "body");
    PlainField("body", EncodeValue(RedactValue(r.body)), EncodeValue(RedactValue(r'.body)), parent);
    SameOne(a, a', parent);
    SameOne(b, b', parent);
    SameConcat([a], [a'], [b], [b'], parent);
    SameConcat([a] + [b], [a'] + [b'], r.fields, r'.fields, parent);
    ObjectsAlike([a] + [b] + r.fields, [a'] + [b'] + r'.fields, parent);
  }

  /** Two logs have one payload exactly when one is the other sent again. */
  lemma LogPayloadRule(i: Item<LogRecord>, j: Item<LogRecord>)
    requires LogPayload(i).Some? && LogPayload(j).Some?
    ensures LogPayload(i) == LogPayload(j) <==> ResentLog(i, j)
  {
    LogsAlike(i.record, j.record, "logRecords");
    EnvelopesAlike("resourceLogs", "scopeLogs", "logRecords", i, j, LogJson(i.record), LogJson(j.record));
  }

  // ----- Spans -----

  ghost predicate ResentEvents(es: seq<Event>, fs: seq<Event>, name: string) {
    |es| == |fs| && forall k :: 0 <= k < |es| ==>
      ResentMap(es[k].attributes, fs[k].attributes) && SameAll(es[k].fields, fs[k].fields, name)
  }

  ghost predicate ResentSpan(i: Item<Span>, j: Item<Span>) {
    ResentContext(i, j) && SameSpan(i.record, j.record, "spans")
  }

  ghost predicate SameSpan(s: Span, s': Span, parent: string) {
    && ResentMap(s.attributes, s'.attributes) && ResentEvents(s.events, s'.events, "events") && ResentEvents(s.links, s'.links, "links")
    && SameAll(s.early, s'.early, parent) && SameAll(s.middle, s'.middle, parent) && SameAll(s.late, s'.late, parent)
  }

  /** The events and the links of a span stand under their names once. */
  predicate SpanShaped(s: Span) {
    Absent(s.early, "events") && Absent(s.middle, "links")
  }

  lemma {:induction false} EventAt(es: seq<Event>, k: nat)
    requires k < |es|
    ensures EventsJson(es)[k] == EventJson(es[k])
  {
    if k > 0 {
      EventAt(es[1..], k - 1);
    }
  }

  lemma EventAlike(e: Event, f: Event, name: string)
    ensures Same(EventJson(e), EventJson(f), name) <==> ResentMap(e.attributes, f.attributes) && SameAll(e.fields, f.fields, name)
  {
    hide ResentMap, Same, SameField, SameAll, Attributes;
    var a, b := Attributes("attributes", e.attributes), Attributes("attributes", f.attributes);
    AttributesAlike("attributes", e.attributes, f.attributes, name);
    SameOne(a, b, name);
    SameConcat([a], [b], e.fields, f.fields, name);
    ObjectsAlike([a] + e.fields, [b] + f.fields, name);
  }

  lemma EventFieldsAlike(name: string, es: seq<Event>, fs: seq<Event>, parent: string)
    requires PlainName(name)
    ensures SameField(Field(name, Arr(EventsJson(es))), Field(name, Arr(EventsJson(fs))), parent) <==> ResentEvents(es, fs, name)
  {
    hide ResentMap, Same, SameField, SameAll;
    forall k | 0 <= k < |es| && k < |fs|
      ensures Same(EventsJson(es)[k], EventsJson(fs)[k], name)
        <==> ResentMap(es[k].attributes, fs[k].attributes) && SameAll(es[k].fields, fs[k].fields, name)
    {
      EventAt(es, k);
      EventAt(fs, k);
      EventAlike(es[k], fs[k], name);
    }
    ArrayFieldsAlike(name, EventsJson(es), EventsJson(fs), parent);
  }

  lemma SpansAlike(s: Span, s': Span, parent: string)
    ensures SameSpan(s, s', parent) ==> Same(SpanJson(s), SpanJson(s'), parent)
    ensures SpanShaped(s) && SpanShaped(s') && Same(SpanJson(s), SpanJson(s'), parent) ==> SameSpan(s, s', parent)
  {
    hide ResentMap, ResentEvents, Same, SameField, SameAll, EventsJson, Attributes;
    var a, a' := Attributes("attributes", s.attributes), Attributes("attributes", s'.attributes);
    var e, e' := Field("events", Arr(EventsJson(s.events))), Field("events", Arr(EventsJson(s'.events)));
    var l, l' := Field("links", Arr(EventsJson(s.links))), Field("links", Arr(EventsJson(s'.links)));
    AttributesAlike("attributes", s.attributes, s'.attributes, parent);
    AttributesName("attributes", s.attributes);
    AttributesName("attributes", s'.attributes);
    EventFieldsAlike("events", s.events, s'.events, parent);
    EventFieldsAlike("links", s.links, s'.links, parent);
    SpanFieldsAlike(a, a', s.early, s'.early, e, e', s.middle, s'.middle, l, l', s.late, s'.late, parent);
    ObjectsAlike([a] + s.early + [e] + s.middle + [l] + s.late, [a'] + s'.early + [e'] + s'.middle + [l'] + s'.late, parent);
  }

  /** One field, then two fields that stand alone under their names, with other fields before, between and after. */
  lemma SpanFieldsAlike(a: Field, a': Field, early: seq<Field>, early': seq<Field>, e: Field, e': Field,
                        middle: seq<Field>, middle': seq<Field>, l: Field, l': Field, late: seq<Field>, late': seq<Field>, parent: string)
    requires a.name == a'.name && e.name == e'.name && l.name == l'.name && a.name != e.name
    ensures var xs, ys := [a] + early + [e] + middle + [l] + late, [a'] + early' + [e'] + middle' + [l'] + late';
      var parts := SameField(a, a', parent) && SameAll(early, early', parent) && SameField(e, e', parent)
        && SameAll(middle, middle', parent) && SameField(l, l', parent) && SameAll(late, late', parent);
      && (parts ==> SameAll(xs, ys, parent))
      && (Absent(early, e.name) && Absent(early', e.name) && Absent(middle, l.name) && Absent(middle', l.name) ==>
            (SameAll(xs, ys, parent) ==> parts))
  {
    hide SameField, SameAll;
    var rest, rest' := middle + [l] + late, middle' + [l'] + late';
    SameOne(a, a', parent);
    SameConcat([a], [a'], early, early', parent);
    SameAround([a] + early, e, rest, [a'] + early', e', rest', parent);
    SameAround(middle, l, late, middle', l', late', parent);
    assert [a] + early + [e] + rest == [a] + early + [e] + middle + [l] + late;
    assert [a'] + early' + [e'] + rest' == [a'] + early' + [e'] + middle' + [l'] + late';
  }

  /** Two spans have one payload exactly when one is the other sent again. */
  lemma SpanPayloadRule(i: Item<Span>, j: Item<Span>)
    requires SpanPayload(i).Some? && SpanPayload(j).Some?
    ensures ResentSpan(i, j) ==> SpanPayload(i) == SpanPayload(j)
    ensures SpanShaped(i.record) && SpanShaped(j.record) ==> (SpanPayload(i) == SpanPayload(j) <==> ResentSpan(i, j))
  {
    hide SameSpan;
    SpansAlike(i.record, j.record, "spans");
    EnvelopesAlike("resourceSpans", "scopeSpans", "spans", i, j, SpanJson(i.record), SpanJson(j.record));
  }

  // ----- Metric points -----

  ghost predicate ResentExemplars(xs: seq<Exemplar>, ys: seq<Exemplar>) {
    |xs| == |ys| && forall k :: 0 <= k < |xs| ==> ResentExemplar(xs[k], ys[k])
  }

  ghost predicate ResentExemplar(x: Exemplar, y: Exemplar) {
    ResentMap(x.filtered, y.filtered) && SameAll(x.early, y.early, "exemplars") && SameAll(x.late, y.late, "exemplars")
  }

  /** The point itself. */
  ghost predicate SamePoint(p: Point, p': Point) {
    && ResentMap(p.attributes, p'.attributes) && ResentExemplars(p.exemplars, p'.exemplars)
    && SameAll(p.early, p'.early, "dataPoints") && SameAll(p.late, p'.late, "dataPoints")
  }

  /** The data around the point. */
  ghost predicate SameData(p: Point, p': Point) {
    && p.dataKey == p'.dataKey && SamePoint(p, p')
    && SameAll(p.dataEarly, p'.dataEarly, p.dataKey) && SameAll(p.dataLate, p'.dataLate, p.dataKey)
  }

  /** The other fields of the metric, where the data stands before its metadata and where it stands after. */
  ghost predicate SameMetricFields(p: Point, p': Point) {
    && SameAll(p.before, p'.before, "metrics")
    && if Less(p.dataKey, "metadata") then SameAll(p.between + p.after, p'.between + p'.after, "metrics")
       else SameAll(p.between, p'.between, "metrics") && SameAll(p.after, p'.after, "metrics")
  }

  ghost predicate ResentPoint(i: Item<Point>, j: Item<Point>) {
    ResentContext(i, j) && SameMetric(i.record, j.record)
  }

  ghost predicate SameMetric(p: Point, p': Point) {
    SameData(p, p') && ResentMap(p.metadata, p'.metadata) && SameMetricFields(p, p')
  }

  const KINDS := {"gauge", "sum", "histogram", "exponentialHistogram", "summary"}

  /** No name stands twice in an object of the encoding, and the data stands under the name of its kind. */
  ghost predicate PointShaped(p: Point) {
    && p.dataKey in KINDS
    && Absent(p.early, "exemplars") && Absent(p.dataEarly, "dataPoints")
    && (forall x :: x in p.exemplars ==> Absent(x.early, "filteredAttributes"))
    && Absent(p.before + p.between + p.after, "metadata")
    && forall kind :: kind in KINDS ==> Absent(p.before + p.between + p.after, kind)
  }

  lemma {:induction false} ExemplarAt(xs: seq<Exemplar>, k: nat)
    requires k < |xs|
    ensures ExemplarsJson(xs)[k] == ExemplarJson(xs[k])
  {
    if k > 0 {
      ExemplarAt(xs[1..], k - 1);
    }
  }

  lemma ExemplarAlike(x: Exemplar, y: Exemplar)
    ensures ResentExemplar(x, y) ==> Same(ExemplarJson(x), ExemplarJson(y), "exemplars")
    ensures Absent(x.early, "filteredAttributes") && Absent(y.early, "filteredAttributes") ==>
      (Same(ExemplarJson(x), ExemplarJson(y), "exemplars") ==> ResentExemplar(x, y))
  {
    hide ResentMap, Same, SameField, SameAll, Attributes;
    var a, b := Attributes("filteredAttributes", x.filtered), Attributes("filteredAttributes", y.filtered);
    AttributesAlike("filteredAttributes", x.filtered, y.filtered, "exemplars");
    AttributesName("filteredAttributes", x.filtered);
    AttributesName("filteredAttributes", y.filtered);
    SameAround(x.early, a, x.late, y.early, b, y.late, "exemplars");
    ObjectsAlike(x.early + [a] + x.late, y.early + [b] + y.late, "exemplars");
  }

  lemma AttributesName(name: string, es: seq<Attribute>)
    ensures Attributes(name, es).name == name
  {
  }

  lemma ExemplarFieldsAlike(xs: seq<Exemplar>, ys: seq<Exemplar>, parent: string)
    ensures var f, g := Field("exemplars", Arr(ExemplarsJson(xs))), Field("exemplars", Arr(ExemplarsJson(ys)));
      && (ResentExemplars(xs, ys) ==> SameField(f, g, parent))
      && ((forall x :: x in xs + ys ==> Absent(x.early, "filteredAttributes")) && SameField(f, g, parent) ==> ResentExemplars(xs, ys))
  {
    hide ResentExemplar, Same, SameField, Absent;
    forall k | 0 <= k < |xs| && k < |ys|
      ensures ResentExemplar(xs[k], ys[k]) ==> Same(ExemplarsJson(xs)[k], ExemplarsJson(ys)[k], "exemplars")
      ensures Absent(xs[k].early, "filteredAttributes") && Absent(ys[k].early, "filteredAttributes") ==>
        (Same(ExemplarsJson(xs)[k], ExemplarsJson(ys)[k], "exemplars") ==> ResentExemplar(xs[k], ys[k]))
      ensures xs[k] in xs + ys && ys[k] in xs + ys
    {
      ExemplarAt(xs, k);
      ExemplarAt(ys, k);
      ExemplarAlike(xs[k], ys[k]);
      assert (xs + ys)[k] == xs[k] && (xs + ys)[|xs| + k] == ys[k];
    }
    ArrayFieldsAlike("exemplars", ExemplarsJson(xs), ExemplarsJson(ys), parent);
  }

  lemma PointsAlike(p: Point, p': Point)
    ensures SamePoint(p, p') ==> Same(PointJson(p), PointJson(p'), "dataPoints")
    ensures PointShaped(p) && PointShaped(p') && Same(PointJson(p), PointJson(p'), "dataPoints") ==> SamePoint(p, p')
  {
    hide ResentMap, ResentExemplars, Same, SameField, SameAll, Attributes, ExemplarsJson;
    var a, a' := Attributes("attributes", p.attributes), Attributes("attributes", p'.attributes);
    var x, x' := Field("exemplars", Arr(ExemplarsJson(p.exemplars))), Field("exemplars", Arr(ExemplarsJson(p'.exemplars)));
    AttributesAlike("attributes", p.attributes, p'.attributes, "dataPoints");
    AttributesName("attributes", p.attributes);
    ExemplarFieldsAlike(p.exemplars, p'.exemplars, "dataPoints");
    SameOne(a, a', "dataPoints");
    SameConcat([a], [a'], p.early, p'.early, "dataPoints");
    AbsentInConcat([a], p.early, "exemplars");
    AttributesName("attributes", p'.attributes);
    AbsentInConcat([a'], p'.early, "exemplars");
    SameAround([a] + p.early, x, p.late, [a'] + p'.early, x', p'.late, "dataPoints");
    ObjectsAlike([a] + p.early + [x] + p.late, [a'] + p'.early + [x'] + p'.late, "dataPoints");
  }

  lemma AbsentInConcat(fs: seq<Field>, gs: seq<Field>, name: string)
    ensures Absent(fs + gs, name) <==> Absent(fs, name) && Absent(gs, name)
  {
    var all := fs + gs;
    assert forall i :: 0 <= i < |fs| ==> fs[i] == all[i];
    assert forall i :: 0 <= i < |gs| ==> gs[i] == all[|fs| + i];
  }

  lemma DataAlike(p: Point, p': Point)
    requires PlainName(p.dataKey) && PlainName(p'.dataKey)
    ensures SameData(p, p') ==> SameField(DataField(p), DataField(p'), "metrics")
    ensures PointShaped(p) && PointShaped(p') && SameField(DataField(p), DataField(p'), "metrics") ==> SameData(p, p')
  {
    hide Same, SameField, SameAll, PointJson, SamePoint;
    var key := p.dataKey;
    var d, d' := Field("dataPoints", Arr([PointJson(p)])), Field("dataPoints", Arr([PointJson(p')]));
    if key == p'.dataKey {
      PointsAlike(p, p');
      OneItemAlike("dataPoints", PointJson(p), PointJson(p'), key);
      SameAround(p.dataEarly, d, p.dataLate, p'.dataEarly, d', p'.dataLate, key);
      ObjectsAlike(p.dataEarly + [d] + p.dataLate, p'.dataEarly + [d'] + p'.dataLate, key);
      PlainField(key, Obj(p.dataEarly + [d] + p.dataLate), Obj(p'.dataEarly + [d'] + p'.dataLate), "metrics");
    } else {
      NamesApart(DataField(p), DataField(p'), "metrics");
    }
  }

  lemma NamesApart(f: Field, g: Field, parent: string)
    requires f.name != g.name
    ensures !SameField(f, g, parent)
  {
  }

  lemma NoSuchName(fs: seq<Field>, k: nat, gs: seq<Field>, parent: string)
    requires k < |fs| && Absent(gs, fs[k].name)
    ensures !SameAll(fs, gs, parent)
  {
    if k < |gs| {
      assert !SameField(fs[k], gs[k], parent);
    }
  }

  function MetricFields(p: Point): seq<Field> {
    MetricJson(p).fields
  }

  /** Metrics with data of one kind. */
  lemma MetricsAlike(p: Point, p': Point)
    requires PlainName(p.dataKey) && p.dataKey == p'.dataKey
    ensures SameMetric(p, p') ==> Same(MetricJson(p), MetricJson(p'), "metrics")
    ensures PointShaped(p) && PointShaped(p') && Same(MetricJson(p), MetricJson(p'), "metrics") ==> SameMetric(p, p')
  {
    hide ResentMap, Same, SameField, SameAll, Attributes, DataField, SameData, PointShaped;
    var m, m' := Attributes("metadata", p.metadata), Attributes("metadata", p'.metadata);
    var x, x' := DataField(p), DataField(p');
    DataAlike(p, p');
    AttributesAlike("metadata", p.metadata, p'.metadata, "metrics");
    AttributesName("metadata", p.metadata);
    AttributesName("metadata", p'.metadata);
    DataName(p);
    DataName(p');
    if Less(p.dataKey, "metadata") {
      DataFirst(x, x', p.before, p'.before, m, m', p.between + p.after, p'.between + p'.after);
      ObjectsAlike(p.before + [x] + [m] + (p.between + p.after), p'.before + [x'] + [m'] + (p'.between + p'.after), "metrics");
    } else {
      SameAround(p.before, m, p.between + [x] + p.after, p'.before, m', p'.between + [x'] + p'.after, "metrics");
      SameAround(p.between, x, p.after, p'.between, x', p'.after, "metrics");
      assert p.before + [m] + (p.between + [x] + p.after) == p.before + [m] + p.between + [x] + p.after;
      assert p'.before + [m'] + (p'.between + [x'] + p'.after) == p'.before + [m'] + p'.between + [x'] + p'.after;
      ObjectsAlike(p.before + [m] + p.between + [x] + p.after, p'.before + [m'] + p'.between + [x'] + p'.after, "metrics");
    }
    if PointShaped(p) { ShapedParts(p); }
    if PointShaped(p') { ShapedParts(p'); }
  }

  lemma DataName(p: Point)
    ensures DataField(p).name == p.dataKey
  {
  }

  lemma DataFirst(x: Field, x': Field, before: seq<Field>, before': seq<Field>, m: Field, m': Field, rest: seq<Field>, rest': seq<Field>)
    requires x.name == x'.name && m.name == m'.name
    ensures var xs, ys := before + [x] + [m] + rest, before' + [x'] + [m'] + rest';
      var parts := SameAll(before, before', "metrics") && SameField(x, x', "metrics") && SameField(m, m', "metrics")
        && SameAll(rest, rest', "metrics");
      && (parts ==> SameAll(xs, ys, "metrics"))
      && (Absent(before, x.name) && Absent(before', x.name) && SameAll(xs, ys, "metrics") ==> parts)
  {
    hide SameField, SameAll;
    SameAround(before, x, [m] + rest, before', x', [m'] + rest', "metrics");
    SameOne(m, m', "metrics");
    SameConcat([m], [m'], rest, rest', "metrics");
    assert before + [x] + ([m] + rest) == before + [x] + [m] + rest;
    assert before' + [x'] + ([m'] + rest') == before' + [x'] + [m'] + rest';
  }

  lemma ShapedParts(p: Point)
    requires PointShaped(p)
    ensures p.dataKey in KINDS
    ensures Absent(p.before, "metadata") && Absent(p.between, "metadata") && Absent(p.after, "metadata")
    ensures forall kind :: kind in KINDS ==> Absent(p.before, kind) && Absent(p.between, kind) && Absent(p.after, kind)
  {
    hide Absent;
    AbsentInConcat(p.before + p.between, p.after, "metadata");
    AbsentInConcat(p.before, p.between, "metadata");
    forall kind | kind in KINDS ensures Absent(p.before, kind) && Absent(p.between, kind) && Absent(p.after, kind) {
      AbsentInConcat(p.before + p.between, p.after, kind);
      AbsentInConcat(p.before, p.between, kind);
    }
  }

  /** Metrics with data of different kinds are apart by the name of the kind. */
  lemma KindsApart(p: Point, p': Point)
    requires PointShaped(p) && PointShaped(p') && p.dataKey != p'.dataKey
    ensures !Same(MetricJson(p), MetricJson(p'), "metrics")
  {
    hide Same, SameAll, Attributes, DataField;
    var xs, ys := MetricFields(p), MetricFields(p');
    ShapedParts(p');
    DataName(p);
    DataName(p');
    AttributesName("metadata", p'.metadata);
    var k := if Less(p.dataKey, "metadata") then |p.before| else |p.before| + 1 + |p.between|;
    assert xs[k] == DataField(p);
    NoKind(p', p.dataKey);
    NoSuchName(xs, k, ys, "metrics");
    ObjectsAlike(xs, ys, "metrics");
  }

  lemma NoKind(p: Point, kind: string)
    requires PointShaped(p) && kind in KINDS && kind != p.dataKey
    ensures Absent(MetricFields(p), kind)
  {
    hide Absent, Attributes, DataField;
    var x, m := DataField(p), Attributes("metadata", p.metadata);
    ShapedParts(p);
    DataName(p);
    AttributesName("metadata", p.metadata);
    OneAbsent(x, kind);
    OneAbsent(m, kind);
    if Less(p.dataKey, "metadata") {
      AbsentInConcat(p.before + [x] + [m], p.between + p.after, kind);
      AbsentInConcat(p.between, p.after, kind);
      AbsentInConcat(p.before + [x], [m], kind);
      AbsentInConcat(p.before, [x], kind);
    } else {
      AbsentInConcat(p.before + [m] + p.between + [x], p.after, kind);
      AbsentInConcat(p.before + [m] + p.between, [x], kind);
      AbsentInConcat(p.before + [m], p.between, kind);
      AbsentInConcat(p.before, [m], kind);
    }
  }

  lemma OneAbsent(f: Field, name: string)
    ensures Absent([f], name) <==> f.name != name
  {
    assert [f][0] == f;
  }

  /** Two points have one payload exactly when one is the other sent again. */
  lemma PointPayloadRule(i: Item<Point>, j: Item<Point>)
    requires PointPayload(i).Some? && PointPayload(j).Some? && PlainName(i.record.dataKey)
    ensures ResentPoint(i, j) ==> PointPayload(i) == PointPayload(j)
    ensures PointShaped(i.record) && PointShaped(j.record) ==> (PointPayload(i) == PointPayload(j) <==> ResentPoint(i, j))
  {
    hide PointShaped, SameMetricFields, SamePoint;
    if i.record.dataKey == j.record.dataKey {
      MetricsAlike(i.record, j.record);
    } else if PointShaped(i.record) && PointShaped(j.record) {
      KindsApart(i.record, j.record);
    }
    EnvelopesAlike("resourceMetrics", "scopeMetrics", "metrics", i, j, MetricJson(i.record), MetricJson(j.record));
  }
}
