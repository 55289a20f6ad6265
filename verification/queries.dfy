/** The query builders: each adds the filters of its signal to the common ones. */
module Queries {
  import opened Options
  import opened Sql
  import opened FilterCompiler
  import Redaction

  // ----- Hexadecimal identities -----

  function HexDigit(c: char): Option<nat> {
    if '0' <= c <= '9' then Some(c as nat - '0' as nat)
    else if 'a' <= c <= 'f' then Some(10 + (c as nat - 'a' as nat))
    else if 'A' <= c <= 'F' then Some(10 + (c as nat - 'A' as nat))
    else None
  }

  function DecodeHex(s: string): Option<seq<int>> {
    if s == "" then Some([])
    else if |s| == 1 || HexDigit(s[0]).None? || HexDigit(s[1]).None? then None
    else
      match DecodeHex(s[2..])
      case None => None
      case Some(rest) => Some([16 * HexDigit(s[0]).value + HexDigit(s[1]).value] + rest)
  }

  predicate AllZero(s: string) {
    forall i :: 0 <= i < |s| ==> s[i] == '0'
  }

  function DecodeId(value: string, size: nat): Option<seq<int>> {
    match DecodeHex(value)
    case None => None
    case Some(bytes) => if |bytes| != size || AllZero(value) then None else Some(bytes)
  }

  lemma {:induction false} HexBytes(s: string)
    ensures DecodeHex(s).Some? ==>
      2 * |DecodeHex(s).value| == |s| && forall i :: 0 <= i < |DecodeHex(s).value| ==> 0 <= DecodeHex(s).value[i] < 256
    decreases |s|
  {
    if |s| > 1 { HexBytes(s[2..]); }
  }

  function DigitOf(n: nat): char
    requires n < 16
  {
    if n < 10 then '0' + n as char else 'a' + (n - 10) as char
  }

  /** Bytes in lower-case hexadecimal. */
  function EncodeHex(bytes: seq<int>): string
    requires forall i :: 0 <= i < |bytes| ==> 0 <= bytes[i] < 256
  {
    if bytes == [] then "" else [DigitOf(bytes[0] / 16), DigitOf(bytes[0] % 16)] + EncodeHex(bytes[1..])
  }

  lemma {:induction false} DecodedText(bytes: seq<int>)
    requires forall i :: 0 <= i < |bytes| ==> 0 <= bytes[i] < 256
    ensures DecodeHex(EncodeHex(bytes)) == Some(bytes)
  {
    if bytes != [] {
      var rest := EncodeHex(bytes[1..]);
      var s := EncodeHex(bytes);
      DecodedText(bytes[1..]);
      assert s[2..] == rest;
      assert HexDigit(s[0]) == Some(bytes[0] / 16) && HexDigit(s[1]) == Some(bytes[0] % 16);
      assert bytes == [bytes[0]] + bytes[1..];
    }
  }

  lemma {:induction false} EncodedBytes(s: string)
    requires DecodeHex(s).Some?
    ensures forall i :: 0 <= i < |DecodeHex(s).value| ==> 0 <= DecodeHex(s).value[i] < 256
    ensures EncodeHex(DecodeHex(s).value) == Redaction.Lower(s)
    decreases |s|
  {
    HexBytes(s);
    if |s| > 1 {
      EncodedBytes(s[2..]);
      var bytes := DecodeHex(s).value;
      assert bytes[1..] == DecodeHex(s[2..]).value;
      HexPair(s[0], s[1], bytes[0]);
      Redaction.LowerConcat(s[..2], s[2..]);
      assert s == s[..2] + s[2..];
      assert Redaction.Lower(s[..2]) == [Redaction.LowerChar(s[0]), Redaction.LowerChar(s[1])] by {
        Redaction.LowerAt(s[..2]);
      }
    }
  }

  lemma HexPair(a: char, b: char, byte: int)
    requires HexDigit(a).Some? && HexDigit(b).Some? && byte == 16 * HexDigit(a).value + HexDigit(b).value
    ensures 0 <= byte < 256
    ensures DigitOf(byte / 16) == Redaction.LowerChar(a) && DigitOf(byte % 16) == Redaction.LowerChar(b)
  {
    assert byte / 16 == HexDigit(a).value && byte % 16 == HexDigit(b).value;
  }

  /** A text is read as some bytes exactly when, in lower case, it is their hexadecimal. */
  lemma HexRule(s: string, bytes: seq<int>)
    requires forall i :: 0 <= i < |bytes| ==> 0 <= bytes[i] < 256
    ensures DecodeHex(s) == Some(bytes) <==> Redaction.Lower(s) == EncodeHex(bytes)
  {
    if DecodeHex(s) == Some(bytes) {
      EncodedBytes(s);
    }
    if Redaction.Lower(s) == EncodeHex(bytes) {
      DecodedText(bytes);
      LowerDecodes(s);
    }
  }

  lemma LowerDigit(c: char)
    ensures HexDigit(Redaction.LowerChar(c)) == HexDigit(c)
  {
  }

  /** The case of the digits does not matter. */
  lemma {:induction false} LowerDecodes(s: string)
    ensures DecodeHex(Redaction.Lower(s)) == DecodeHex(s)
    decreases |s|
  {
    hide HexDigit, Redaction.LowerChar;
    Redaction.LowerAt(s);
    if |s| > 1 {
      LowerDigit(s[0]);
      LowerDigit(s[1]);
      LowerDecodes(s[2..]);
      Redaction.LowerConcat(s[..2], s[2..]);
      assert s == s[..2] + s[2..];
      Redaction.LowerAt(s[..2]);
      assert Redaction.Lower(s)[2..] == Redaction.Lower(s[2..]);
    }
  }

  predicate ZeroBytes(bytes: seq<int>) {
    forall i :: 0 <= i < |bytes| ==> bytes[i] == 0
  }

  lemma {:induction false} ZeroDigits(s: string)
    ensures DecodeHex(s).Some? ==> (AllZero(s) <==> ZeroBytes(DecodeHex(s).value))
    decreases |s|
  {
    if |s| > 1 && DecodeHex(s).Some? {
      ZeroDigits(s[2..]);
      var first, rest := DecodeHex(s).value[0], DecodeHex(s[2..]).value;
      assert DecodeHex(s).value == [first] + rest;
      assert first == 0 <==> s[0] == '0' && s[1] == '0';
      ZeroFirst(first, rest);
      ZeroPair(s);
    }
  }

  lemma ZeroFirst(first: int, rest: seq<int>)
    ensures ZeroBytes([first] + rest) <==> first == 0 && ZeroBytes(rest)
  {
    var all := [first] + rest;
    assert all[0] == first && forall i :: 0 <= i < |rest| ==> rest[i] == all[i + 1];
  }

  lemma ZeroPair(s: string)
    requires |s| > 1
    ensures AllZero(s) <==> s[0] == '0' && s[1] == '0' && AllZero(s[2..])
  {
    assert forall i :: 0 <= i < |s[2..]| ==> s[2..][i] == s[i + 2];
  }

  /** An accepted identity is that many bytes, not all zero, written in hexadecimal of either case. */
  lemma DecodedIdIsValid(value: string, size: nat)
    ensures DecodeId(value, size).Some? <==>
      DecodeHex(value).Some? && |value| == 2 * size && !ZeroBytes(DecodeHex(value).value)
    ensures DecodeId(value, size).Some? ==> |DecodeId(value, size).value| == size
  {
    HexBytes(value);
    ZeroDigits(value);
  }

  // ----- Extending a compiled condition -----

  method AddEquals(where0: seq<Clause>, args0: seq<Value>, column: Column, value: Value) returns (where: seq<Clause>, args: seq<Value>)
    requires WhereMarks(where0) == |args0|
    ensures WhereMarks(where) == |args|
    ensures forall row :: Selects(where, args, row) <==> Selects(where0, args0, row) && Holds(SqlEqual(Get(row, column), value))
  {
    AppendToAll(where0, args0, Equals(Col(column), Param), [value]);
    where, args := where0 + [Equals(Col(column), Param)], args0 + [value];
  }

  predicate MatchesId(row: Row, id: (Column, string, nat)) {
    id.1 != "" ==> DecodeId(id.1, id.2).Some? && Get(row, id.0) == Blob(DecodeId(id.1, id.2).value)
  }

  predicate MatchesEach(row: Row, ids: seq<(Column, string, nat)>) {
    forall id :: id in ids ==> MatchesId(row, id)
  }

  lemma OneMoreId(row: Row, ids: seq<(Column, string, nat)>, i: nat)
    requires i < |ids|
    ensures MatchesEach(row, ids[..i + 1]) <==> MatchesEach(row, ids[..i]) && MatchesId(row, ids[i])
  {
    assert ids[..i + 1] == ids[..i] + [ids[i]];
  }

  function IdsError(ids: seq<(Column, string, nat)>): Option<Error> {
    if ids == [] then None
    else if ids[0].1 != "" && DecodeId(ids[0].1, ids[0].2).None? then Some(InvalidId(ids[0].0))
    else IdsError(ids[1..])
  }

  /** The loop over the trace and span identities. */
  method AddIds(ids: seq<(Column, string, nat)>, where0: seq<Clause>, args0: seq<Value>)
    returns (where: seq<Clause>, args: seq<Value>, err: Option<Error>)
    requires WhereMarks(where0) == |args0|
    ensures err == IdsError(ids)
    ensures err.None? ==> WhereMarks(where) == |args|
    ensures err.None? ==>
      forall row :: Selects(where, args, row) <==> Selects(where0, args0, row) && MatchesEach(row, ids)
  {
    where, args, err := where0, args0, None;
    var i := 0;
    while i < |ids|
      invariant 0 <= i <= |ids| && err.None? && IdsError(ids) == IdsError(ids[i..])
      invariant WhereMarks(where) == |args|
      invariant forall row ::
        Selects(where, args, row) <==> Selects(where0, args0, row) && MatchesEach(row, ids[..i])
    {
      assert ids[i..][1..] == ids[i + 1..];
      forall row ensures MatchesEach(row, ids[..i + 1]) <==> MatchesEach(row, ids[..i]) && MatchesId(row, ids[i]) {
        OneMoreId(row, ids, i);
      }
      if ids[i].1 != "" {
        var bytes := DecodeId(ids[i].1, ids[i].2);
        if bytes.None? { err := Some(InvalidId(ids[i].0)); return; }
        where, args := AddEquals(where, args, ids[i].0, Blob(bytes.value));
      }
      i := i + 1;
    }
    assert ids[..|ids|] == ids;
  }

  function Ids(f: Filters): seq<(Column, string, nat)> {
    [(TraceId, f.traceId, 16), (SpanId, f.spanId, 8)]
  }

  predicate MatchesIds(f: Filters, row: Row) {
    && (f.traceId != "" ==> row.traceId.Some? && DecodeId(f.traceId, 16) == row.traceId)
    && (f.spanId != "" ==> row.spanId.Some? && DecodeId(f.spanId, 8) == row.spanId)
  }

  lemma IdsMean(f: Filters, row: Row)
    ensures MatchesEach(row, Ids(f)) <==> MatchesIds(f, row)
  {
    assert Ids(f)[0] in Ids(f) && Ids(f)[1] in Ids(f);
  }

  // ----- Logs -----

  function LevelNumber(level: string): Option<int> {
    var levels := map["trace" := 1, "debug" := 5, "info" := 9, "warn" := 13, "error" := 17, "fatal" := 21];
    var lower := Redaction.Lower(level);
    if lower in levels then Some(levels[lower]) else None
  }

  const LEVELS := ["trace", "debug", "info", "warn", "error", "fatal"]

  /** The levels, in any case, are four apart in their order. */
  lemma LevelRule(level: string)
    ensures LevelNumber(level).Some? <==> Redaction.Lower(level) in LEVELS
    ensures forall k :: 0 <= k < |LEVELS| && Redaction.Lower(level) == LEVELS[k] ==> LevelNumber(level) == Some(4 * k + 1)
  {
  }

  predicate MatchesLevel(f: Filters, row: Row) {
    f.level != "" ==> LevelNumber(f.level).Some? && row.severity >= LevelNumber(f.level).value
  }

  function LogsError(p: Parser, f: Filters, now: int): Option<Error> {
    if OtelError(p, f, now).Some? then OtelError(p, f, now)
    else if f.level != "" && LevelNumber(f.level).None? then Some(InvalidLevel)
    else IdsError(Ids(f))
  }

  method Logs(p: Parser, f: Filters, now: int) returns (where: seq<Clause>, args: seq<Value>, err: Option<Error>)
    ensures err == LogsError(p, f, now)
    ensures err.None? ==> WhereMarks(where) == |args|
    ensures err.None? ==>
      forall row :: Selects(where, args, row) <==> Matches(p, f, now, EventTime, row) && MatchesLevel(f, row) && MatchesIds(f, row)
  {
    hide Selects, Matches, WhereMarks, LevelNumber, DecodeId;
    where, args, err := OtelWhere(p, f, now, EventTime);
    if err.Some? { return; }
    if f.level != "" {
      var level := LevelNumber(f.level);
      if level.None? { err := Some(InvalidLevel); return; }
      AppendToAll(where, args, AtLeast(Col(Severity), Param), [Int(level.value)]);
      where, args := where + [AtLeast(Col(Severity), Param)], args + [Int(level.value)];
    }
    where, args, err := AddIds(Ids(f), where, args);
    if err.Some? { return; }
    forall row ensures MatchesEach(row, Ids(f)) <==> MatchesIds(f, row) { IdsMean(f, row); }
  }

  // ----- Spans -----

  method AddName(f: Filters, where0: seq<Clause>, args0: seq<Value>) returns (where: seq<Clause>, args: seq<Value>)
    requires WhereMarks(where0) == |args0|
    ensures WhereMarks(where) == |args|
    ensures forall row :: Selects(where, args, row) <==> Selects(where0, args0, row) && MatchesName(f, row)
  {
    hide Selects, WhereMarks;
    where, args := where0, args0;
    if f.name != "" { where, args := AddEquals(where, args, Name, Str(f.name)); }
  }

  function KindNumber(kind: string): Option<int> {
    var kinds := map["unspecified" := 0, "internal" := 1, "server" := 2, "client" := 3, "producer" := 4, "consumer" := 5];
    if kind in kinds then Some(kinds[kind]) else None
  }

  function StatusNumber(status: string): Option<int> {
    var statuses := map["unset" := 0, "ok" := 1, "error" := 2];
    if status in statuses then Some(statuses[status]) else None
  }

  const KIND_NAMES := ["unspecified", "internal", "server", "client", "producer", "consumer"]

  const STATUS_NAMES := ["unset", "ok", "error"]

  /** Kinds and statuses are numbered in their order. */
  lemma KindRule(text: string)
    ensures KindNumber(text).Some? <==> text in KIND_NAMES
    ensures forall k :: 0 <= k < |KIND_NAMES| && text == KIND_NAMES[k] ==> KindNumber(text) == Some(k)
    ensures StatusNumber(text).Some? <==> text in STATUS_NAMES
    ensures forall k :: 0 <= k < |STATUS_NAMES| && text == STATUS_NAMES[k] ==> StatusNumber(text) == Some(k)
  {
  }

  predicate MatchesName(f: Filters, row: Row) {
    f.name != "" ==> row.name == f.name
  }

  predicate MatchesKind(f: Filters, row: Row) {
    && (f.kind != "" ==> KindNumber(f.kind) == Some(row.kind))
    && (f.status != "" ==> StatusNumber(f.status) == Some(row.status))
  }

  /** A span without a start, or that ends before it starts, has no duration. */
  predicate MatchesDuration(p: Parser, f: Filters, row: Row) {
    f.minDuration != "" ==>
      && p.duration(f.minDuration).Some?
      && row.start > 0 && row.end >= row.start && row.end - row.start >= p.duration(f.minDuration).value
  }

  function DurationError(p: Parser, f: Filters): Option<Error> {
    if f.minDuration == "" then None
    else if p.duration(f.minDuration).None? || p.duration(f.minDuration).value < 0 then Some(InvalidMinDuration)
    else None
  }

  function SpansError(p: Parser, f: Filters, now: int): Option<Error> {
    if OtelError(p, f, now).Some? then OtelError(p, f, now)
    else if IdsError(Ids(f)).Some? then IdsError(Ids(f))
    else if KindError(f).Some? then KindError(f)
    else DurationError(p, f)
  }

  function KindError(f: Filters): Option<Error> {
    if f.kind != "" && KindNumber(f.kind).None? then Some(InvalidKind)
    else if f.status != "" && StatusNumber(f.status).None? then Some(InvalidStatus)
    else None
  }

  method AddKind(f: Filters, where0: seq<Clause>, args0: seq<Value>) returns (where: seq<Clause>, args: seq<Value>, err: Option<Error>)
    requires WhereMarks(where0) == |args0|
    ensures err == KindError(f)
    ensures err.None? ==> WhereMarks(where) == |args|
    ensures err.None? ==> forall row :: Selects(where, args, row) <==> Selects(where0, args0, row) && MatchesKind(f, row)
  {
    hide Selects, WhereMarks, KindNumber, StatusNumber;
    where, args, err := where0, args0, None;
    if f.kind != "" {
      var kind := KindNumber(f.kind);
      if kind.None? { err := Some(InvalidKind); return; }
      where, args := AddEquals(where, args, Kind, Int(kind.value));
    }
    if f.status != "" {
      var status := StatusNumber(f.status);
      if status.None? { err := Some(InvalidStatus); return; }
      where, args := AddEquals(where, args, StatusCode, Int(status.value));
    }
  }

  method AddDuration(p: Parser, f: Filters, where0: seq<Clause>, args0: seq<Value>)
    returns (where: seq<Clause>, args: seq<Value>, err: Option<Error>)
    requires WhereMarks(where0) == |args0|
    ensures err == DurationError(p, f)
    ensures err.None? ==> WhereMarks(where) == |args|
    ensures err.None? ==> forall row :: Selects(where, args, row) <==> Selects(where0, args0, row) && MatchesDuration(p, f, row)
  {
    hide Selects, WhereMarks;
    where, args, err := where0, args0, None;
    if f.minDuration != "" {
      var duration := p.duration(f.minDuration);
      if duration.None? || duration.value < 0 { err := Some(InvalidMinDuration); return; }
      AppendToAll(where, args, Less(Constant(0), Col(StartTime)), []);
      where, args := where + [Less(Constant(0), Col(StartTime))], args + [];
      AppendToAll(where, args, AtLeast(Col(EndTime), Col(StartTime)), []);
      where, args := where + [AtLeast(Col(EndTime), Col(StartTime))], args + [];
      AppendToAll(where, args, AtLeast(Difference(EndTime, StartTime), Param), [Int(duration.value)]);
      where, args := where + [AtLeast(Difference(EndTime, StartTime), Param)], args + [Int(duration.value)];
    }
  }

  method Spans(p: Parser, f: Filters, now: int) returns (where: seq<Clause>, args: seq<Value>, err: Option<Error>)
    ensures err == SpansError(p, f, now)
    ensures err.None? ==> WhereMarks(where) == |args|
    ensures err.None? ==> forall row :: Selects(where, args, row) <==>
      && Matches(p, f, now, StartTime, row) && MatchesIds(f, row) && MatchesName(f, row)
      && MatchesKind(f, row) && MatchesDuration(p, f, row)
  {
    hide Selects, Matches, WhereMarks, MatchesKind, KindError, MatchesDuration, DurationError, DecodeId;
    where, args, err := OtelWhere(p, f, now, StartTime);
    if err.Some? { return; }
    where, args, err := AddIds(Ids(f), where, args);
    if err.Some? { return; }
    forall row ensures MatchesEach(row, Ids(f)) <==> MatchesIds(f, row) { IdsMean(f, row); }
    where, args := AddName(f, where, args);
    where, args, err := AddKind(f, where, args);
    if err.Some? { return; }
    where, args, err := AddDuration(p, f, where, args);
  }

  // ----- Metrics -----

  const TYPES := {"gauge", "sum", "histogram", "exponential_histogram", "summary"}
  const TEMPORALITIES := {"delta", "cumulative", "unspecified"}

  predicate MatchesMetric(f: Filters, row: Row) {
    && (f.resourceId != "" ==> row.resourceId == Redaction.Lower(f.resourceId))
    && (f.metricType != "" ==> row.metricType == f.metricType)
    && (f.temporality != "" ==> row.temporality == f.temporality)
  }

  function ViewError(f: Filters, view: string): Option<Error> {
    if view == "points" then None
    else if view == "list" || view == "series" then (if f.payload then Some(PayloadOfSummary) else None)
    else if view == "rate" then (if Text.TrimSpace(f.name) == "" then Some(RateNeedsName) else None)
    else Some(UnknownView)
  }

  /** Points are always shown, a list or series without payload, a rate for a name that is not blank; nothing else is a view. */
  lemma ViewRule(f: Filters, view: string)
    ensures ViewError(f, view).None?
      <==> view == "points" || (view in {"list", "series"} && !f.payload) || (view == "rate" && !Text.Spaces(f.name))
    ensures ViewError(f, view) == Some(UnknownView) <==> view !in {"points", "list", "series", "rate"}
    ensures ViewError(f, view) == Some(PayloadOfSummary) <==> view in {"list", "series"} && f.payload
  {
    hide Text.TrimSpace;
    var before, after := Text.TrimSpaceParts(f.name);
    if Text.Spaces(f.name) { Text.TrimSpaceIs(f.name, f.name, "", ""); }
    if Text.TrimSpace(f.name) == "" { assert f.name == before + after; }
  }

  function ResourceError(f: Filters): Option<Error> {
    if f.resourceId != "" && (DecodeHex(f.resourceId).None? || |DecodeHex(f.resourceId).value| != 16) then Some(InvalidResourceId)
    else None
  }

  function MetricError(p: Parser, f: Filters, now: int, view: string): Option<Error> {
    if OtelError(p, f, now).Some? then OtelError(p, f, now)
    else if ResourceError(f).Some? then ResourceError(f)
    else if f.metricType != "" && f.metricType !in TYPES then Some(InvalidType)
    else if f.temporality != "" && f.temporality !in TEMPORALITIES then Some(InvalidTemporality)
    else ViewError(f, view)
  }

  method AddResource(f: Filters, where0: seq<Clause>, args0: seq<Value>)
    returns (where: seq<Clause>, args: seq<Value>, err: Option<Error>)
    requires WhereMarks(where0) == |args0|
    ensures err == ResourceError(f)
    ensures err.None? ==> WhereMarks(where) == |args|
    ensures err.None? ==> forall row :: Selects(where, args, row) <==>
      Selects(where0, args0, row) && (f.resourceId != "" ==> row.resourceId == Redaction.Lower(f.resourceId))
  {
    hide Selects, WhereMarks;
    where, args, err := where0, args0, None;
    if f.resourceId != "" {
      var id := DecodeHex(f.resourceId);
      if id.None? || |id.value| != 16 { err := Some(InvalidResourceId); return; }
      where, args := AddEquals(where, args, ResourceId, Str(Redaction.Lower(f.resourceId)));
    }
  }

  /** A filter that must name one of a few values. */
  method AddChoice(text: string, column: Column, allowed: set<string>, invalid: Error, where0: seq<Clause>, args0: seq<Value>)
    returns (where: seq<Clause>, args: seq<Value>, err: Option<Error>)
    requires WhereMarks(where0) == |args0|
    ensures err == if text != "" && text !in allowed then Some(invalid) else None
    ensures err.None? ==> WhereMarks(where) == |args|
    ensures err.None? ==>
      forall row :: Selects(where, args, row) <==> Selects(where0, args0, row) && (text != "" ==> Get(row, column) == Str(text))
  {
    hide Selects, WhereMarks;
    where, args, err := where0, args0, None;
    if text != "" {
      if text !in allowed { err := Some(invalid); return; }
      where, args := AddEquals(where, args, column, Str(text));
    }
  }

  method MetricQuery(p: Parser, f: Filters, now: int, view: string)
    returns (where: seq<Clause>, args: seq<Value>, err: Option<Error>)
    ensures err == MetricError(p, f, now, view)
    ensures err.None? ==> WhereMarks(where) == |args|
    ensures err.None? ==>
      forall row :: Selects(where, args, row) <==> Matches(p, f, now, EventTime, row) && MatchesName(f, row) && MatchesMetric(f, row)
  {
    hide Selects, Matches, WhereMarks, ViewError, ResourceError, DecodeHex, OtelError;
    where, args, err := OtelWhere(p, f, now, EventTime);
    if err.Some? { return; }
    where, args := AddName(f, where, args);
    where, args, err := AddResource(f, where, args);
    if err.Some? { return; }
    where, args, err := AddChoice(f.metricType, MetricType, TYPES, InvalidType, where, args);
    if err.Some? { return; }
    where, args, err := AddChoice(f.temporality, Temporality, TEMPORALITIES, InvalidTemporality, where, args);
    if err.Some? { return; }
    err := ViewError(f, view);
  }

  // ----- Several sources in one statement -----

  /** The number of placeholders before a source in the text of the statement. */
  function Offset(sources: seq<seq<Clause>>, i: nat): nat
    requires i <= |sources|
  {
    if i == 0 then 0 else Offset(sources, i - 1) + WhereMarks(sources[i - 1])
  }

  /** Source i of a statement selects a row with the arguments that its placeholders reach by position. */
  predicate SourceSelects(sources: seq<seq<Clause>>, bindings: seq<Value>, i: nat, row: Row)
    requires i < |sources|
  {
    var o := Offset(sources, i);
    o + WhereMarks(sources[i]) <= |bindings| && Selects(sources[i], bindings[o..o + WhereMarks(sources[i])], row)
  }

  lemma {:induction false} OffsetOfPrefix(sources: seq<seq<Clause>>, more: seq<Clause>, i: nat)
    requires i <= |sources|
    ensures Offset(sources + [more], i) == Offset(sources, i)
  {
    if i > 0 { OffsetOfPrefix(sources, more, i - 1); }
  }

  /** Appending a source and its arguments leaves every earlier source with its own arguments. */
  lemma AppendSource(sources: seq<seq<Clause>>, bindings: seq<Value>, where: seq<Clause>, args: seq<Value>, i: nat, row: Row)
    requires Offset(sources, |sources|) == |bindings| && WhereMarks(where) == |args| && i <= |sources|
    requires i < |sources| ==> Offset(sources, i) + WhereMarks(sources[i]) <= |bindings|
    ensures Offset(sources + [where], |sources| + 1) == |bindings + args|
    ensures SourceSelects(sources + [where], bindings + args, i, row) <==>
      if i < |sources| then SourceSelects(sources, bindings, i, row) else Selects(where, args, row)
  {
    hide Selects, WhereMarks;
    OffsetOfPrefix(sources, where, i);
    OffsetOfPrefix(sources, where, |sources|);
    var all := bindings + args;
    if i < |sources| {
      var o, n := Offset(sources, i), WhereMarks(sources[i]);
      assert all[o..o + n] == bindings[o..o + n];
    } else {
      assert all[|bindings|..|bindings| + |args|] == args;
    }
  }

  lemma {:induction false} OffsetsGrow(sources: seq<seq<Clause>>, i: nat, j: nat)
    requires i <= j <= |sources|
    ensures Offset(sources, i) <= Offset(sources, j)
  {
    if i < j { OffsetsGrow(sources, i, j - 1); }
  }

  const EVENTS := [EventTime, StartTime, EventTime]

  /** The sources of the services query project the context of a record, and no list of its own attributes. */
  predicate Prepares(sources: seq<seq<Clause>>) {
    forall where :: where in sources ==> !Reads(where, RecordAttributes)
  }

  /**
   The three signals share one list of arguments; each source still selects exactly the rows that match.
   Without a column of record attributes the statement is one that the database accepts exactly when no
   attribute is asked for.
   */
  method Services(p: Parser, f: Filters, now: int) returns (sources: seq<seq<Clause>>, bindings: seq<Value>, err: Option<Error>)
    ensures err == OtelError(p, f, now)
    ensures err.None? ==> |sources| == 3 && Offset(sources, 3) == |bindings|
    ensures err.None? ==> (Prepares(sources) <==> f.attribute == [])
    ensures err.None? && f.attribute == [] ==>
      forall i: nat, row :: i < 3 ==> (SourceSelects(sources, bindings, i, row) <==> Matches(p, f, now, EVENTS[i], row))
  {
    sources, bindings, err := [], [], None;
    while |sources| < 3
      invariant |sources| <= 3 && Offset(sources, |sources|) == |bindings| && (err == None)
      invariant |sources| > 0 ==> OtelError(p, f, now).None?
      invariant forall i: nat, row ::
        i < |sources| ==> (SourceSelects(sources, bindings, i, row) <==> Matches(p, f, now, EVENTS[i], row))
      invariant forall where :: where in sources ==> (Reads(where, RecordAttributes) <==> f.attribute != [])
      decreases 3 - |sources|
    {
      var where, args;
      where, args, err := OtelWhere(p, f, now, EVENTS[|sources|]);
      if err.Some? { return; }
      forall i: nat, row | i <= |sources|
        ensures SourceSelects(sources + [where], bindings + args, i, row) <==> Matches(p, f, now, EVENTS[i], row)
      {
        if i < |sources| { OffsetsGrow(sources, i + 1, |sources|); }
        AppendSource(sources, bindings, where, args, i, row);
      }
      AppendedOffset(sources, where);
      sources, bindings := sources + [where], bindings + args;
    }
    assert sources[0] in sources;
  }

  lemma AppendedOffset(sources: seq<seq<Clause>>, where: seq<Clause>)
    ensures Offset(sources + [where], |sources| + 1) == Offset(sources, |sources|) + WhereMarks(where)
  {
    OffsetOfPrefix(sources, where, |sources|);
  }

  lemma EmptySelects(row: Row)
    ensures Selects([], [], row)
  {
  }

  /** A trace joins its spans and logs: both sources are given the same identity. */
  method Trace(id: string) returns (sources: seq<seq<Clause>>, bindings: seq<Value>, err: Option<Error>)
    ensures err == if DecodeId(id, 16).None? then Some(InvalidId(TraceId)) else None
    ensures err.None? ==> |sources| == 2 && Offset(sources, 2) == |bindings|
    ensures err.None? ==>
      forall i: nat, row :: i < 2 ==> (SourceSelects(sources, bindings, i, row) <==> row.traceId == DecodeId(id, 16))
  {
    hide Selects, SourceSelects, DecodeId;
    sources, bindings, err := [], [], None;
    var traceId := DecodeId(id, 16);
    if traceId.None? { err := Some(InvalidId(TraceId)); return; }
    var where, args := AddEquals([], [], TraceId, Blob(traceId.value));
    assert [] + [where] == [where] && [] + args == args && [where] + [where] == [where, where];
    AppendedOffset([], where);
    forall i: nat, row | i < 2
      ensures SourceSelects([where, where], args + args, i, row) <==> row.traceId == DecodeId(id, 16)
    {
      EmptySelects(row);
      AppendSource([], [], where, args, 0, row);
      AppendSource([where], args, where, args, i, row);
    }
    AppendedOffset([where], where);
    sources, bindings := [where, where], args + args;
  }
}
