/** String operations shared by the models. A string is its code points; sizes are in UTF-8 bytes. */
module Text {
  /** The code points that TrimSpace removes. */
  predicate IsSpace(c: char) {
    c in {'\t', '\n', '\U{b}', '\U{c}', '\r', ' ', '\U{85}', '\U{a0}', '\U{1680}',
          '\U{2028}', '\U{2029}', '\U{202f}', '\U{205f}', '\U{3000}'}
    || '\U{2000}' <= c <= '\U{200a}'
  }

  function TrimLeft(s: string): string {
    if s != "" && IsSpace(s[0]) then TrimLeft(s[1..]) else s
  }

  function TrimRight(s: string): string {
    if s != "" && IsSpace(s[|s| - 1]) then TrimRight(s[..|s| - 1]) else s
  }

  function TrimSpace(s: string): string {
    TrimRight(TrimLeft(s))
  }

  predicate Spaces(s: string) {
    forall i :: 0 <= i < |s| ==> IsSpace(s[i])
  }

  /** s is core between spaces. */
  predicate Around(s: string, before: string, core: string, after: string) {
    s == before + core + after && Spaces(before) && Spaces(after)
  }

  lemma {:induction false} TrimLeftParts(s: string) returns (before: string)
    ensures s == before + TrimLeft(s) && Spaces(before)
    ensures TrimLeft(s) != "" ==> !IsSpace(TrimLeft(s)[0])
  {
    before := "";
    if s != "" && IsSpace(s[0]) {
      before := TrimLeftParts(s[1..]);
      before := [s[0]] + before;
    }
  }

  lemma {:induction false} TrimRightParts(s: string) returns (after: string)
    ensures s == TrimRight(s) + after && Spaces(after)
    ensures TrimRight(s) != "" ==> !IsSpace(TrimRight(s)[|TrimRight(s)| - 1])
  {
    after := "";
    if s != "" && IsSpace(s[|s| - 1]) {
      after := TrimRightParts(s[..|s| - 1]);
      after := after + [s[|s| - 1]];
    }
  }

  /** What trimming leaves has no space at either end. */
  predicate Trimmed(s: string) {
    s != "" ==> !IsSpace(s[0]) && !IsSpace(s[|s| - 1])
  }

  /** Trimming takes away spaces at both ends and nothing else. */
  lemma TrimSpaceParts(s: string) returns (before: string, after: string)
    ensures Around(s, before, TrimSpace(s), after) && Trimmed(TrimSpace(s))
  {
    before := TrimLeftParts(s);
    after := TrimRightParts(TrimLeft(s));
    assert s == before + (TrimSpace(s) + after);
  }

  /** From lo to hi the text has no space at either end, and outside it has only spaces. */
  predicate Edges(s: string, lo: nat, hi: nat) {
    && lo <= hi <= |s| && (lo < hi ==> !IsSpace(s[lo]) && !IsSpace(s[hi - 1]))
    && (forall i :: 0 <= i < lo ==> IsSpace(s[i])) && (forall i :: hi <= i < |s| ==> IsSpace(s[i]))
  }

  lemma EdgesOf(s: string, before: string, core: string, after: string)
    requires Around(s, before, core, after) && Trimmed(core)
    ensures Edges(s, |before|, |before| + |core|) && s[|before|..|before| + |core|] == core
  {
  }

  lemma EdgesAgree(s: string, lo: nat, hi: nat, lo': nat, hi': nat)
    requires Edges(s, lo, hi) && Edges(s, lo', hi')
    ensures s[lo..hi] == s[lo'..hi']
  {
  }

  /** So there is only one way to trim. */
  lemma TrimSpaceIs(s: string, before: string, core: string, after: string)
    requires Around(s, before, core, after) && Trimmed(core)
    ensures TrimSpace(s) == core
  {
    var b, a := TrimSpaceParts(s);
    EdgesOf(s, before, core, after);
    EdgesOf(s, b, TrimSpace(s), a);
    EdgesAgree(s, |before|, |before| + |core|, |b|, |b| + |TrimSpace(s)|);
  }

  predicate HasSuffix(s: string, suffix: string) {
    |suffix| <= |s| && s[|s| - |suffix|..] == suffix
  }

  function Utf8Len(c: char): nat {
    if c < '\U{80}' then 1 else if c < '\U{800}' then 2 else if c < '\U{10000}' then 3 else 4
  }

  function ByteLen(s: string): nat {
    if s == "" then 0 else Utf8Len(s[0]) + ByteLen(s[1..])
  }

  // ----- What the bytes are -----

  /** A byte that continues a sequence: the last six bits. */
  function Tail(n: nat): int {
    0x80 + n % 64
  }

  /** The bytes of a code point, section 3 of RFC 3629. */
  function Utf8(c: char): seq<int> {
    var n := c as int;
    var a := n / 64;
    var b := a / 64;
    if n < 0x80 then [n]
    else if n < 0x800 then [0xC0 + a, Tail(n)]
    else if n < 0x10000 then [0xE0 + b, Tail(a), Tail(n)]
    else [0xF0 + b / 64, Tail(b), Tail(a), Tail(n)]
  }

  function Bytes(s: string): seq<int> {
    if s == "" then [] else Utf8(s[0]) + Bytes(s[1..])
  }

  /** How many bytes a first byte announces. */
  function Announced(lead: int): nat {
    if lead < 0x80 then 1 else if lead < 0xE0 then 2 else if lead < 0xF0 then 3 else 4
  }

  /** Six more bits. */
  function More(bits: int, byte: int): int {
    bits * 64 + byte - 0x80
  }

  /** The first code point of a text of bytes. */
  function FirstPoint(bytes: seq<int>): int
    requires bytes != [] && Announced(bytes[0]) <= |bytes|
  {
    match Announced(bytes[0])
    case 1 => bytes[0]
    case 2 => More(bytes[0] - 0xC0, bytes[1])
    case 3 => More(More(bytes[0] - 0xE0, bytes[1]), bytes[2])
    case _ => More(More(More(bytes[0] - 0xF0, bytes[1]), bytes[2]), bytes[3])
  }

  lemma TailOf(n: nat)
    ensures More(n / 64, Tail(n)) == n && 0x80 <= Tail(n) < 0xC0
  {
  }

  lemma FirstOfBytes(c: char, rest: seq<int>)
    ensures var u := Utf8(c);
      && 0 < |u| == Utf8Len(c) && Announced((u + rest)[0]) == |u| && FirstPoint(u + rest) == c as int
      && forall i :: 0 <= i < |u| ==> 0 <= u[i] < 256
  {
    hide More, Tail;
    var n := c as int;
    TailOf(n);
    TailOf(n / 64);
    TailOf(n / 64 / 64);
  }

  /** A size in bytes is the length of the UTF-8 text, from which the string can be read back. */
  lemma {:induction false} ByteLenRule(s: string, t: string)
    ensures |Bytes(s)| == ByteLen(s)
    ensures Bytes(s) == Bytes(t) <==> s == t
  {
    hide Utf8, FirstPoint, Announced, Utf8Len;
    if s != "" { FirstOfBytes(s[0], Bytes(s[1..])); }
    if t != "" { FirstOfBytes(t[0], Bytes(t[1..])); }
    if s != "" {
      ByteLenRule(s[1..], if t == "" then "" else t[1..]);
      if t != "" && Bytes(s) == Bytes(t) {
        assert s[0] == t[0];
        assert Bytes(s)[|Utf8(s[0])|..] == Bytes(s[1..]) && Bytes(t)[|Utf8(s[0])|..] == Bytes(t[1..]);
        assert s == [s[0]] + s[1..] && t == [t[0]] + t[1..];
      }
    }
  }
}
