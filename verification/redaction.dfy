/** Redaction of credentials in OTLP attribute values. */
module Redaction {
  import opened Text

  datatype Value =
    | Empty
    | Str(text: string)
    | Bool(b: bool)
    | Int(digits: string)
    | Double(digits: string)
    | Bytes(base64: string)
    | Slice(items: seq<Value>)
    | Map(entries: seq<Attribute>)

  /** A map keeps its entries in order, duplicates included. */
  datatype Attribute = Attribute(key: string, value: Value)

  // ----- Sensitive keys -----

  /** Lower case, exact for the question whether the result equals an ASCII name. */
  function LowerChar(c: char): char {
    if 'A' <= c <= 'Z' then (c as int + 32) as char
    else if c == '\U{130}' then 'i'
    else if c == '\U{212a}' then 'k'
    else c
  }

  function Lower(s: string): string {
    if s == "" then "" else [LowerChar(s[0])] + Lower(s[1..])
  }

  predicate IsSeparator(c: char) {
    c == '.' || c == '/' || c == ':'
  }

  function AfterSeparator(s: string): string {
    if s == "" || IsSeparator(s[|s| - 1]) then "" else AfterSeparator(s[..|s| - 1]) + [s[|s| - 1]]
  }

  /** The last nonempty segment, or "" when there is none. */
  function Terminal(s: string): string {
    if s == "" then "" else if IsSeparator(s[|s| - 1]) then Terminal(s[..|s| - 1]) else AfterSeparator(s)
  }

  function Joined(s: string): string {
    if s == "" then "" else (if s[0] == '-' || s[0] == '_' then "" else [s[0]]) + Joined(s[1..])
  }

  function Underscored(s: string): string {
    if s == "" then "" else [if IsSeparator(s[0]) || s[0] == '-' then '_' else s[0]] + Underscored(s[1..])
  }

  const CREDENTIALS := {
    "authorization", "proxyauthorization", "cookie", "setcookie",
    "password", "passwd", "secret", "apikey", "clientsecret", "token",
    "accesstoken", "refreshtoken", "idtoken", "sessiontoken", "csrftoken"}

  const SUFFIXES := [
    "password", "passwd", "secret", "api_key", "access_token", "refresh_token", "id_token", "session_token", "csrf_token"]

  predicate EndsWithCredential(normalized: string) {
    exists i :: 0 <= i < |SUFFIXES| && HasSuffix(Underscored(normalized), "_" + SUFFIXES[i])
  }

  predicate IsSensitiveKey(key: string) {
    var normalized := Lower(TrimSpace(key));
    var terminal := Terminal(normalized);
    terminal != ""
    && (Joined(terminal) in CREDENTIALS || EndsWithCredential(normalized))
  }

  lemma {:induction false} LowerAt(s: string)
    ensures |Lower(s)| == |s| && forall i :: 0 <= i < |s| ==> Lower(s)[i] == LowerChar(s[i])
  {
    if s != "" {
      LowerAt(s[1..]);
    }
  }

  function Underscore(c: char): char {
    if IsSeparator(c) || c == '-' then '_' else c
  }

  lemma {:induction false} UnderscoredAt(s: string)
    ensures |Underscored(s)| == |s| && forall i :: 0 <= i < |s| ==> Underscored(s)[i] == Underscore(s[i])
  {
    if s != "" {
      UnderscoredAt(s[1..]);
    }
  }

  lemma {:induction false} AfterSeparatorOf(a: string, sep: char, b: string)
    requires IsSeparator(sep) && forall i :: 0 <= i < |b| ==> !IsSeparator(b[i])
    ensures AfterSeparator(a + [sep] + b) == b
  {
    var s := a + [sep] + b;
    if b != "" {
      AfterSeparatorOf(a, sep, b[..|b| - 1]);
      assert s[..|s| - 1] == a + [sep] + b[..|b| - 1];
      assert b == b[..|b| - 1] + [b[|b| - 1]];
    }
  }

  predicate IsPlain(c: char) {
    LowerChar(c) == c && !IsSpace(c)
  }

  lemma NormalizedPlain(key: string)
    requires forall i :: 0 <= i < |key| ==> IsPlain(key[i])
    ensures Lower(TrimSpace(key)) == key
  {
    LowerAt(key);
    assert TrimLeft(key) == key && TrimRight(key) == key;
  }

  lemma TerminalOf(a: string, b: string)
    requires b != "" && forall i :: 0 <= i < |b| ==> !IsSeparator(b[i])
    ensures Terminal(a + "." + b) == b
  {
    AfterSeparatorOf(a, '.', b);
  }

  lemma {:induction false} JoinedPlain(s: string)
    requires forall i :: 0 <= i < |s| ==> s[i] != '-' && s[i] != '_'
    ensures Joined(s) == s
  {
    if s != "" {
      JoinedPlain(s[1..]);
    }
  }

  /** Where the last underscore of each suffix stands, counted from the end. */
  function UnderscoreOf(i: nat): nat {
    if i == 0 then 9 else if i == 1 || i == 2 then 7 else if i == 3 then 4 else 6
  }

  predicate UnderscoreAt(key: string, k: nat) {
    0 < k <= |key| && Underscore(key[|key| - k]) == '_'
  }

  lemma SuffixUnderscore(i: nat)
    requires i < |SUFFIXES|
    ensures var suffix := "_" + SUFFIXES[i]; UnderscoreOf(i) <= |suffix| && suffix[|suffix| - UnderscoreOf(i)] == '_'
  {
    if i < 3 {
      assert |SUFFIXES[0]| == 8 && |SUFFIXES[1]| == 6 && |SUFFIXES[2]| == 6;
    } else if i == 3 {
      assert SUFFIXES[3] == "api_key";
    } else {
      assert SUFFIXES[i] in {"access_token", "refresh_token", "id_token", "session_token", "csrf_token"};
    }
  }

  lemma SuffixChar(u: string, suffix: string, k: nat)
    requires 0 < k <= |suffix| && HasSuffix(u, suffix)
    ensures k <= |u| && u[|u| - k] == suffix[|suffix| - k]
  {
    assert u[|u| - |suffix|..][|suffix| - k] == u[|u| - k];
  }

  lemma NoSuffix(key: string, i: nat)
    requires i < |SUFFIXES| && !UnderscoreAt(key, UnderscoreOf(i))
    ensures !HasSuffix(Underscored(key), "_" + SUFFIXES[i])
  {
    hide HasSuffix, Underscored;
    UnderscoredAt(key);
    SuffixUnderscore(i);
    if HasSuffix(Underscored(key), "_" + SUFFIXES[i]) {
      SuffixChar(Underscored(key), "_" + SUFFIXES[i], UnderscoreOf(i));
    }
  }

  lemma NoCredentialEnd(key: string)
    requires !UnderscoreAt(key, 9) && !UnderscoreAt(key, 7) && !UnderscoreAt(key, 4) && !UnderscoreAt(key, 6)
    ensures !EndsWithCredential(key)
  {
    forall i | 0 <= i < |SUFFIXES| ensures !HasSuffix(Underscored(key), "_" + SUFFIXES[i]) {
      NoSuffix(key, i);
    }
  }

  /** A plain key whose last segment is no credential and that no suffix fits. */
  lemma SafeKey(key: string, a: string, b: string)
    requires key == a + "." + b && b != ""
    requires forall i :: 0 <= i < |key| ==> IsPlain(key[i])
    requires forall i :: 0 <= i < |b| ==> !IsSeparator(b[i]) && b[i] != '-' && b[i] != '_'
    requires b !in CREDENTIALS
    requires !UnderscoreAt(key, 9) && !UnderscoreAt(key, 7) && !UnderscoreAt(key, 4) && !UnderscoreAt(key, 6)
    ensures !IsSensitiveKey(key)
  {
    NormalizedPlain(key);
    TerminalOf(a, b);
    JoinedPlain(b);
    NoCredentialEnd(key);
  }

  lemma NotCredentials()
    ensures "name" !in CREDENTIALS && "id" !in CREDENTIALS && "component" !in CREDENTIALS
  {
    assert "component"[0] != "setcookie"[0] && "component"[1] != "csrftoken"[1];
  }

  lemma NamesAreSafe()
    ensures !IsSensitiveKey("service.name") && !IsSensitiveKey("event.name")
  {
    hide IsSensitiveKey;
    NotCredentials();
    SafeKey("service.name", "service", "name");
    SafeKey("event.name", "event", "name");
  }

  lemma IdsAreSafe()
    ensures !IsSensitiveKey("request.id") && !IsSensitiveKey("autok.product.id")
  {
    hide IsSensitiveKey;
    NotCredentials();
    SafeKey("request.id", "request", "id");
    SafeKey("autok.product.id", "autok.product", "id");
  }

  /** The attributes that are copied into columns are never redacted. */
  lemma ColumnKeysAreSafe()
    ensures !IsSensitiveKey("service.name") && !IsSensitiveKey("request.id") && !IsSensitiveKey("autok.product.id")
    ensures !IsSensitiveKey("app.component") && !IsSensitiveKey("event.name")
  {
    hide IsSensitiveKey;
    NamesAreSafe();
    IdsAreSafe();
    NotCredentials();
    SafeKey("app.component", "app", "component");
  }

  // ----- A credential stays a credential under any namespace -----

  lemma {:induction false} TrimLeftPrefix(p: string, rest: string)
    requires rest != "" && !IsSpace(rest[0])
    ensures TrimLeft(p + rest) == TrimLeft(p) + rest
  {
    if p == "" {
      assert p + rest == rest;
    } else if IsSpace(p[0]) {
      TrimLeftPrefix(p[1..], rest);
      assert (p + rest)[1..] == p[1..] + rest;
    }
  }

  lemma {:induction false} AfterSeparatorSuffix(x: string, sep: char, y: string)
    requires IsSeparator(sep)
    ensures AfterSeparator(x + [sep] + y) == AfterSeparator(y)
  {
    var s := x + [sep] + y;
    if y != "" {
      AfterSeparatorSuffix(x, sep, y[..|y| - 1]);
      assert s[..|s| - 1] == x + [sep] + y[..|y| - 1];
    }
  }

  lemma {:induction false} TerminalSuffix(x: string, sep: char, y: string)
    requires IsSeparator(sep) && Terminal(y) != ""
    ensures Terminal(x + [sep] + y) == Terminal(y)
  {
    var s := x + [sep] + y;
    if IsSeparator(y[|y| - 1]) {
      TerminalSuffix(x, sep, y[..|y| - 1]);
      assert s[..|s| - 1] == x + [sep] + y[..|y| - 1];
    } else {
      AfterSeparatorSuffix(x, sep, y);
    }
  }

  lemma TrimmedEnds(k: string)
    requires k != "" && TrimSpace(k) == k
    ensures !IsSpace(k[0]) && !IsSpace(k[|k| - 1])
  {
    TrimLeftShrinks(k);
    TrimRightShrinks(TrimLeft(k));
  }

  lemma {:induction false} TrimLeftShrinks(s: string)
    ensures |TrimLeft(s)| <= |s|
    ensures s != "" && IsSpace(s[0]) ==> |TrimLeft(s)| < |s|
  {
    if s != "" && IsSpace(s[0]) {
      TrimLeftShrinks(s[1..]);
    }
  }

  lemma {:induction false} TrimRightShrinks(s: string)
    ensures |TrimRight(s)| <= |s|
    ensures s != "" && IsSpace(s[|s| - 1]) ==> |TrimRight(s)| < |s|
  {
    if s != "" && IsSpace(s[|s| - 1]) {
      TrimRightShrinks(s[..|s| - 1]);
    }
  }

  lemma {:induction false} LowerConcat(x: string, y: string)
    ensures Lower(x + y) == Lower(x) + Lower(y)
  {
    if x == "" {
      assert x + y == y;
    } else {
      LowerConcat(x[1..], y);
      assert (x + y)[1..] == x[1..] + y;
    }
  }

  lemma TrimRightKeeps(q: string, rest: string)
    requires rest != "" && !IsSpace(rest[|rest| - 1])
    ensures TrimRight(q + rest) == q + rest
  {
    assert (q + rest)[|q + rest| - 1] == rest[|rest| - 1];
  }

  lemma TrimmedConcat(p: string, rest: string)
    requires rest != "" && !IsSpace(rest[0]) && !IsSpace(rest[|rest| - 1])
    ensures TrimSpace(p + rest) == TrimLeft(p) + rest
  {
    TrimLeftPrefix(p, rest);
    TrimRightKeeps(TrimLeft(p), rest);
  }

  lemma NormalizedSuffix(p: string, sep: char, k: string) returns (x: string)
    requires IsSeparator(sep) && k != "" && TrimSpace(k) == k
    ensures Lower(TrimSpace(p + [sep] + k)) == x + [sep] + Lower(k)
  {
    var rest := [sep] + k;
    TrimmedEnds(k);
    assert p + [sep] + k == p + rest;
    TrimmedConcat(p, rest);
    x := Lower(TrimLeft(p));
    LowerConcat(TrimLeft(p), rest);
    LowerConcat([sep], k);
    assert Lower([sep]) == [sep];
    assert x + ([sep] + Lower(k)) == x + [sep] + Lower(k);
  }

  lemma {:induction false} UnderscoredConcat(x: string, y: string)
    ensures Underscored(x + y) == Underscored(x) + Underscored(y)
  {
    if x == "" {
      assert x + y == y;
    } else {
      UnderscoredConcat(x[1..], y);
      assert (x + y)[1..] == x[1..] + y;
    }
  }

  lemma SuffixOfConcat(u: string, v: string, suffix: string)
    requires HasSuffix(v, suffix)
    ensures HasSuffix(u + v, suffix)
  {
    assert (u + v)[|u + v| - |suffix|..] == v[|v| - |suffix|..];
  }

  /** Putting a key behind any prefix and a separator never hides a credential. */
  lemma NamespacedCredential(prefix: string, sep: char, key: string)
    requires IsSeparator(sep) && TrimSpace(key) == key && IsSensitiveKey(key)
    ensures IsSensitiveKey(prefix + [sep] + key)
  {
    var y := Lower(key);
    var x := NormalizedSuffix(prefix, sep, key);
    TerminalSuffix(x, sep, y);
    if Joined(Terminal(y)) !in CREDENTIALS {
      var i :| 0 <= i < |SUFFIXES| && HasSuffix(Underscored(y), "_" + SUFFIXES[i]);
      UnderscoredConcat(x + [sep], y);
      SuffixOfConcat(Underscored(x + [sep]), Underscored(y), "_" + SUFFIXES[i]);
    }
  }

  // ----- Which keys are sensitive -----

  /** The last segment of a key: between separators, with nothing but separators after it. */
  predicate SegmentAt(s: string, lo: nat, hi: nat) {
    && lo < hi <= |s|
    && (forall i :: lo <= i < hi ==> !IsSeparator(s[i])) && (forall i :: hi <= i < |s| ==> IsSeparator(s[i]))
    && (lo > 0 ==> IsSeparator(s[lo - 1]))
  }

  /** c stands for the letter x: x itself, its capital, or the dotted I or the Kelvin sign. */
  predicate SameLetter(c: char, x: char) {
    || c == x || ('a' <= x <= 'z' && c as int + 32 == x as int)
    || (x == 'i' && c == '\U{130}') || (x == 'k' && c == '\U{212a}')
  }

  /** c stands for x, where an underscore stands for any mark. */
  predicate SameMark(c: char, x: char) {
    if x == '_' then c in {'_', '-', '.', '/', ':'} else SameLetter(c, x)
  }

  predicate Plain(s: string) {
    forall i :: 0 <= i < |s| ==> 'a' <= s[i] <= 'z' || s[i] == '_'
  }

  /** w is c in any case, with hyphens and underscores anywhere. */
  predicate Spells(w: string, c: string) {
    if w == "" then c == ""
    else if w[0] == '-' || w[0] == '_' then Spells(w[1..], c)
    else c != "" && SameLetter(w[0], c[0]) && Spells(w[1..], c[1..])
  }

  predicate SpellsCredential(w: string) {
    exists c :: c in CREDENTIALS && Spells(w, c)
  }

  /** w is c in any case, with any marks in the places of its underscores. */
  predicate ReadsAs(w: string, c: string) {
    |w| == |c| && forall k :: 0 <= k < |w| ==> SameMark(w[k], c[k])
  }

  /** The key ends in the words of a suffix, behind a mark. */
  predicate SpellsSuffix(s: string, suffix: string) {
    |suffix| < |s| && ReadsAs(s[|s| - |suffix| - 1..], "_" + suffix)
  }

  lemma {:induction false} TerminalIs(s: string, lo: nat, hi: nat)
    requires SegmentAt(s, lo, hi)
    ensures Terminal(s) == s[lo..hi]
    decreases |s|
  {
    if hi < |s| {
      TerminalIs(s[..|s| - 1], lo, hi);
    } else if lo == 0 {
      NoSeparator(s);
      assert s[lo..hi] == s;
    } else {
      AfterSeparatorOf(s[..lo - 1], s[lo - 1], s[lo..]);
      assert s == s[..lo - 1] + [s[lo - 1]] + s[lo..];
    }
  }

  lemma {:induction false} NoSeparator(s: string)
    requires forall i :: 0 <= i < |s| ==> !IsSeparator(s[i])
    ensures AfterSeparator(s) == s
  {
    if s != "" {
      NoSeparator(s[..|s| - 1]);
    }
  }

  lemma {:induction false} TerminalAt(s: string) returns (lo: nat, hi: nat)
    requires Terminal(s) != ""
    ensures SegmentAt(s, lo, hi)
  {
    if IsSeparator(s[|s| - 1]) {
      lo, hi := TerminalAt(s[..|s| - 1]);
    } else {
      hi := |s|;
      lo := hi - 1;
      while lo > 0 && !IsSeparator(s[lo - 1])
        invariant lo < hi && forall i :: lo <= i < hi ==> !IsSeparator(s[i])
      {
        lo := lo - 1;
      }
    }
  }

  lemma {:induction false} SpelledJoined(w: string, c: string)
    requires Plain(c)
    ensures Joined(Lower(w)) == c <==> Spells(w, c)
  {
    if w != "" {
      assert Lower(w)[1..] == Lower(w[1..]);
      if w[0] == '-' || w[0] == '_' {
        SpelledJoined(w[1..], c);
      } else if c != "" {
        SpelledJoined(w[1..], c[1..]);
        assert c == [c[0]] + c[1..];
      }
    }
  }

  lemma CredentialsPlain(c: string)
    requires c in CREDENTIALS
    ensures Plain(c)
  {
  }

  lemma SuffixesPlain(i: nat)
    requires i < |SUFFIXES|
    ensures Plain("_" + SUFFIXES[i])
  {
  }

  lemma LowerSegment(s: string, lo: nat, hi: nat)
    ensures SegmentAt(Lower(s), lo, hi) <==> SegmentAt(s, lo, hi)
    ensures lo <= hi <= |s| ==> |Lower(s)| == |s| && Lower(s)[lo..hi] == Lower(s[lo..hi])
  {
    LowerAt(s);
    assert forall i :: 0 <= i < |s| ==> (IsSeparator(LowerChar(s[i])) <==> IsSeparator(s[i]));
    if lo <= hi <= |s| { LowerAt(s[lo..hi]); }
  }

  lemma SuffixSpelled(s: string, suffix: string)
    requires Plain("_" + suffix)
    ensures HasSuffix(Underscored(Lower(s)), "_" + suffix) <==> SpellsSuffix(s, suffix)
  {
    hide Underscored, Lower, IsSeparator, LowerChar, Underscore;
    var u, v := Underscored(Lower(s)), "_" + suffix;
    LowerAt(s);
    UnderscoredAt(Lower(s));
    if |v| <= |s| { SameReading(s, u, |s| - |v|, v); }
  }

  lemma MarkReads(c: char, x: char)
    requires 'a' <= x <= 'z' || x == '_'
    ensures Underscore(LowerChar(c)) == x <==> SameMark(c, x)
  {
  }

  lemma SameReading(s: string, u: string, d: nat, v: string)
    requires |u| == |s| && d <= |s| && forall i :: 0 <= i < |s| ==> u[i] == Underscore(LowerChar(s[i]))
    requires Plain(v)
    ensures u[d..] == v <==> ReadsAs(s[d..], v)
  {
    hide Underscore, LowerChar, SameMark;
    if |v| == |s| - d {
      forall k | 0 <= k < |v| ensures u[d..][k] == v[k] <==> SameMark(s[d..][k], v[k]) {
        MarkReads(s[d + k], v[k]);
      }
    }
  }

  /**
   A key is sensitive exactly when, without the spaces around it, its last segment spells a credential,
   or it has a last segment and ends in the words of a credential behind a mark.
   */
  lemma SensitiveKeyRule(key: string)
    ensures var s := TrimSpace(key);
      IsSensitiveKey(key) <==> exists lo: nat, hi: nat :: SegmentAt(s, lo, hi) && (SpellsCredential(s[lo..hi]) || EndsSpelled(s))
  {
    hide TrimSpace, Terminal, Lower, Joined, EndsWithCredential, EndsSpelled, SegmentAt;
    var s := TrimSpace(key);
    var n := Lower(s);
    EndsAlike(s);
    if Terminal(n) != "" {
      var lo, hi := TerminalAt(n);
      LowerSegment(s, lo, hi);
      SegmentBounds(s, lo, hi);
    }
    forall lo: nat, hi: nat | SegmentAt(s, lo, hi)
      ensures lo < hi <= |s| && Terminal(n) != "" && (Joined(Terminal(n)) in CREDENTIALS <==> SpellsCredential(s[lo..hi]))
    {
      LowerSegment(s, lo, hi);
      SegmentBounds(s, lo, hi);
      TerminalIs(n, lo, hi);
      LowerLength(s[lo..hi]);
      forall c | c in CREDENTIALS ensures Joined(Lower(s[lo..hi])) == c <==> Spells(s[lo..hi], c) {
        CredentialsPlain(c);
        SpelledJoined(s[lo..hi], c);
      }
    }
  }

  predicate EndsSpelled(s: string) {
    exists i :: 0 <= i < |SUFFIXES| && SpellsSuffix(s, SUFFIXES[i])
  }

  lemma EndsAlike(s: string)
    ensures EndsWithCredential(Lower(s)) <==> EndsSpelled(s)
  {
    hide HasSuffix, SpellsSuffix, Underscored, Lower;
    forall i | 0 <= i < |SUFFIXES| ensures HasSuffix(Underscored(Lower(s)), "_" + SUFFIXES[i]) <==> SpellsSuffix(s, SUFFIXES[i]) {
      SuffixesPlain(i);
      SuffixSpelled(s, SUFFIXES[i]);
    }
  }

  lemma SegmentBounds(s: string, lo: nat, hi: nat)
    requires SegmentAt(s, lo, hi)
    ensures lo < hi <= |s|
  {
  }

  lemma LowerLength(s: string)
    ensures |Lower(s)| == |s|
  {
    LowerAt(s);
  }

  // ----- Redaction -----

  const REDACTED := Str("[REDACTED]")

  function RedactMap(entries: seq<Attribute>): (r: seq<Attribute>)
    ensures |r| == |entries|
  {
    if entries == [] then []
    else
      var e := entries[0];
      [Attribute(e.key, if IsSensitiveKey(e.key) then REDACTED else RedactValue(e.value))] + RedactMap(entries[1..])
  }

  function RedactItems(items: seq<Value>): (r: seq<Value>)
    ensures |r| == |items|
  {
    if items == [] then [] else [RedactValue(items[0])] + RedactItems(items[1..])
  }

  function RedactValue(v: Value): Value {
    match v
    case Map(entries) => Map(RedactMap(entries))
    case Slice(items) => Slice(RedactItems(items))
    case _ => v
  }

  /** Values that differ at most in what stands under sensitive keys. */
  predicate SameButSecrets(a: Value, b: Value) {
    match (a, b)
    case (Map(es), Map(fs)) => SameMapButSecrets(es, fs)
    case (Slice(xs), Slice(ys)) => SameItemsButSecrets(xs, ys)
    case _ => a == b
  }

  predicate SameMapButSecrets(es: seq<Attribute>, fs: seq<Attribute>) {
    if es == [] || fs == [] then es == fs
    else
      && es[0].key == fs[0].key
      && (IsSensitiveKey(es[0].key) || SameButSecrets(es[0].value, fs[0].value))
      && SameMapButSecrets(es[1..], fs[1..])
  }

  predicate SameItemsButSecrets(xs: seq<Value>, ys: seq<Value>) {
    if xs == [] || ys == [] then xs == ys
    else SameButSecrets(xs[0], ys[0]) && SameItemsButSecrets(xs[1..], ys[1..])
  }

  /** Redaction hides exactly the values under sensitive keys, and nothing else. */
  lemma {:induction false} RedactionHidesSecrets(a: Value, b: Value)
    ensures RedactValue(a) == RedactValue(b) <==> SameButSecrets(a, b)
  {
    match (a, b)
    case (Map(es), Map(fs)) => MapRedactionHidesSecrets(es, fs);
    case (Slice(xs), Slice(ys)) => ItemRedactionHidesSecrets(xs, ys);
    case _ =>
  }

  lemma {:induction false} MapRedactionHidesSecrets(es: seq<Attribute>, fs: seq<Attribute>)
    ensures RedactMap(es) == RedactMap(fs) <==> SameMapButSecrets(es, fs)
  {
    if es != [] && fs != [] {
      RedactionHidesSecrets(es[0].value, fs[0].value);
      MapRedactionHidesSecrets(es[1..], fs[1..]);
      assert RedactMap(es)[1..] == RedactMap(es[1..]) && RedactMap(fs)[1..] == RedactMap(fs[1..]);
      assert RedactMap(es)[0].key == es[0].key && RedactMap(fs)[0].key == fs[0].key;
    }
  }

  lemma {:induction false} ItemRedactionHidesSecrets(xs: seq<Value>, ys: seq<Value>)
    ensures RedactItems(xs) == RedactItems(ys) <==> SameItemsButSecrets(xs, ys)
  {
    if xs != [] && ys != [] {
      RedactionHidesSecrets(xs[0], ys[0]);
      ItemRedactionHidesSecrets(xs[1..], ys[1..]);
      assert RedactItems(xs)[1..] == RedactItems(xs[1..]) && RedactItems(ys)[1..] == RedactItems(ys[1..]);
    }
  }

  /** A redacted value is its own redaction, so it differs from the original only under sensitive keys. */
  lemma {:induction false} RedactionIsIdempotent(v: Value)
    ensures RedactValue(RedactValue(v)) == RedactValue(v)
    ensures SameButSecrets(v, RedactValue(v))
  {
    match v {
      case Map(entries) => MapRedactionIsIdempotent(entries);
      case Slice(items) => ItemRedactionIsIdempotent(items);
      case _ =>
    }
    RedactionHidesSecrets(v, RedactValue(v));
  }

  lemma {:induction false} MapRedactionIsIdempotent(entries: seq<Attribute>)
    ensures RedactMap(RedactMap(entries)) == RedactMap(entries)
  {
    if entries != [] {
      RedactionIsIdempotent(entries[0].value);
      MapRedactionIsIdempotent(entries[1..]);
      assert RedactMap(entries)[1..] == RedactMap(entries[1..]);
    }
  }

  lemma {:induction false} ItemRedactionIsIdempotent(items: seq<Value>)
    ensures RedactItems(RedactItems(items)) == RedactItems(items)
  {
    if items != [] {
      RedactionIsIdempotent(items[0]);
      ItemRedactionIsIdempotent(items[1..]);
      assert RedactItems(items)[1..] == RedactItems(items[1..]);
    }
  }

  // ----- Columns copied from attributes -----

  /** The string value of the first attribute with a key, and "" otherwise. */
  function AttributeString(entries: seq<Attribute>, key: string): string {
    if entries == [] then ""
    else if entries[0].key == key then (if entries[0].value.Str? then entries[0].value.text else "")
    else AttributeString(entries[1..], key)
  }

  /** A column read from the unredacted attributes cannot depend on a secret. */
  lemma {:induction false} ColumnsHideSecrets(es: seq<Attribute>, fs: seq<Attribute>, key: string)
    requires SameMapButSecrets(es, fs) && !IsSensitiveKey(key)
    ensures AttributeString(es, key) == AttributeString(fs, key)
  {
    if es != [] && fs != [] {
      ColumnsHideSecrets(es[1..], fs[1..], key);
    }
  }
}
