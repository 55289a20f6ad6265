/**
 The check that keeps a caller's SQL inside the wrapper that limits it. The scanner jumps over quotes
 and comments by index; the automaton below reads one character at a time.
 */
module Scanner {
  import opened Options
  import opened Text

  const MAX_SQL_BYTES := 65536

  // ----- The automaton -----

  /** Where the next character stands. Dash, Slash and Closing are code that the next character may revise. */
  datatype Mode =
    | Code
    | Dash
    | Slash
    | LineComment
    | Block
    | Star
    | Quoted(quote: char)
    | Closing(quote: char)
    | Separator

  function FromCode(c: char): Mode {
    if c == '-' then Dash
    else if c == '/' then Slash
    else if c == '\'' || c == '"' || c == '`' then Quoted(c)
    else if c == '[' then Quoted(']')
    else if c == ';' then Separator
    else Code
  }

  function Step(m: Mode, c: char): Mode {
    match m
    case Code => FromCode(c)
    case Dash => if c == '-' then LineComment else FromCode(c)
    case Slash => if c == '*' then Block else FromCode(c)
    case LineComment => if c == '\n' then Code else LineComment
    case Block => if c == '*' then Star else Block
    case Star => if c == '/' then Code else if c == '*' then Star else Block
    case Quoted(q) => if c == q then Closing(q) else m
    case Closing(q) => if c == q then Quoted(q) else FromCode(c)
    case Separator => Separator
  }

  function Run(m: Mode, s: string): Mode
    decreases s
  {
    if s == "" then m else Run(Step(m, s[0]), s[1..])
  }

  predicate IsQuote(c: char) {
    c in {'\'', '"', '`', ']'}
  }

  /** Only the quotes of SQLite are ever open. */
  lemma {:induction false} OnlyQuotes(m: Mode, s: string)
    requires m.Quoted? || m.Closing? ==> IsQuote(m.quote)
    ensures var n := Run(m, s); n.Quoted? || n.Closing? ==> IsQuote(n.quote)
    decreases s
  {
    if s != "" { OnlyQuotes(Step(m, s[0]), s[1..]); }
  }

  /** A character read in one of these modes is SQL, not part of a string, identifier or comment. */
  predicate InCode(m: Mode) {
    m.Code? || m.Dash? || m.Slash? || m.Closing?
  }

  /** The text has met no separator and has left no quote or block comment open. */
  predicate Contained(m: Mode) {
    InCode(m) || m.LineComment?
  }

  lemma {:induction false} RunConcat(m: Mode, a: string, b: string)
    ensures Run(m, a + b) == Run(Run(m, a), b)
    decreases a
  {
    if a == "" {
      assert a + b == b;
    } else {
      assert (a + b)[1..] == a[1..] + b;
      RunConcat(Step(m, a[0]), a[1..], b);
    }
  }

  lemma {:induction false} SeparatorStays(s: string)
    ensures Run(Separator, s) == Separator
  {
    if s != "" { SeparatorStays(s[1..]); }
  }

  predicate SeparatorAt(s: string, k: nat) {
    k < |s| && s[k] == ';' && InCode(Run(Code, s[..k]))
  }

  /** The automaton ends at a separator exactly when the text holds one in code position. */
  lemma {:induction false} SeparatorInCode(s: string)
    ensures Run(Code, s) == Separator <==> exists k: nat :: SeparatorAt(s, k)
  {
    if s != "" {
      var n := |s| - 1;
      RunConcat(Code, s[..n], s[n..]);
      assert s[..n] + s[n..] == s;
      assert s[n..][1..] == "";
      OnlyQuotes(Code, s[..n]);
      assert Run(Code, s) == Step(Run(Code, s[..n]), s[n]);
      SeparatorInCode(s[..n]);
      forall k: nat ensures SeparatorAt(s, k) <==> (SeparatorAt(s[..n], k) || (k == n && SeparatorAt(s, n))) {
        if k < n { assert s[..n][..k] == s[..k]; }
      }
      if Run(Code, s[..n]) == Separator {
        var k: nat :| SeparatorAt(s[..n], k);
        assert SeparatorAt(s, k);
      } else {
        assert Run(Code, s) == Separator <==> SeparatorAt(s, n);
      }
    }
  }

  // ----- The wrapper -----

  const OPENING := "SELECT * FROM (\n"
  const CLOSING := "\n) LIMIT ? OFFSET ?"

  function Wrapped(s: string): string {
    OPENING + s + CLOSING
  }

  lemma {:induction false} PlainTextStaysInCode(s: string, k: nat)
    requires k <= |s| && forall i :: 0 <= i < |s| ==> IsPlain(s[i])
    ensures Run(Code, s[..k]) == Code
  {
    if k > 0 {
      assert s[..k][1..] == s[1..][..k - 1];
      PlainTextStaysInCode(s[1..], k - 1);
    }
  }

  /** A character that leaves code, and every open quote or comment, as it found it. */
  predicate IsPlain(c: char) {
    FromCode(c) == Code && !IsQuote(c)
  }

  lemma {:induction false} OpenStaysOpen(m: Mode, s: string)
    requires !Contained(m) && (m.Quoted? ==> IsQuote(m.quote))
    requires forall i :: 0 <= i < |s| ==> IsPlain(s[i])
    ensures !Contained(Run(m, s))
    decreases s
  {
    if s != "" { OpenStaysOpen(Step(m, s[0]), s[1..]); }
  }

  lemma RunPast(a: string, b: string, c: string, n: nat)
    requires n <= |c|
    ensures (a + b + c)[..|a + b| + n] == a + b + c[..n]
    ensures Run(Code, (a + b + c)[..|a + b| + n]) == Run(Run(Run(Code, a), b), c[..n])
  {
    RunConcat(Code, a, b);
    RunConcat(Code, a + b, c[..n]);
    assert (a + b + c)[..|a + b| + n] == a + b + c[..n];
  }

  /** A newline returns every contained mode to code. */
  lemma NewlineIsCode(m: Mode, s: string, n: nat)
    requires Contained(m) && (m.Closing? ==> IsQuote(m.quote)) && 0 < n <= |s| && s[0] == '\n'
    requires forall i :: 0 < i < |s| ==> IsPlain(s[i])
    ensures Run(m, s[..n]) == Code
  {
    assert s[..n][1..] == s[1..][..n - 1];
    PlainTextStaysInCode(s[1..], n - 1);
  }

  lemma ClosedByNewline(opening: string, s: string, closing: string)
    requires Run(Code, opening) == Code && closing != "" && closing[0] == '\n'
    requires forall i :: 0 <= i < |closing| ==> IsPlain(closing[i])
    ensures var w := opening + s + closing;
      && (Contained(Run(Code, s)) <==> Run(Code, w) == Code)
      && (Contained(Run(Code, s)) ==> forall k :: |opening + s| < k <= |w| ==> Run(Code, w[..k]) == Code)
  {
    var end, w := Run(Code, s), opening + s + closing;
    OnlyQuotes(Code, s);
    if Contained(end) {
      forall k | |opening + s| < k <= |w| ensures Run(Code, w[..k]) == Code {
        RunPast(opening, s, closing, k - |opening + s|);
        NewlineIsCode(end, closing, k - |opening + s|);
      }
    } else {
      RunPast(opening, s, closing, |closing|);
      assert closing[..|closing|] == closing;
      OpenStaysOpen(end, closing);
    }
    assert w[..|w|] == w;
  }

  /**
   A text is contained exactly when the whole wrapper stays code from the end of the text on: its
   closing parenthesis, LIMIT and OFFSET are never inside a quote or comment of the text, and the
   text has not ended the statement.
   */
  lemma WrapperIsWhole(s: string)
    ensures Contained(Run(Code, s)) <==> Run(Code, Wrapped(s)) == Code
    ensures Contained(Run(Code, s)) ==>
      forall k :: |OPENING + s| < k <= |Wrapped(s)| ==> Run(Code, Wrapped(s)[..k]) == Code
  {
    OpeningIsCode();
    ClosingIsPlain();
    ClosedByNewline(OPENING, s, CLOSING);
  }

  lemma ClosingIsPlain()
    ensures CLOSING != "" && CLOSING[0] == '\n'
    ensures forall i :: 0 <= i < |CLOSING| ==> IsPlain(CLOSING[i])
  {
  }

  lemma OpeningIsCode()
    ensures Run(Code, OPENING) == Code
  {
    assert OPENING[..|OPENING|] == OPENING;
    PlainTextStaysInCode(OPENING, |OPENING|);
  }

  // ----- The scanner -----

  datatype Refusal = TooLong | NotOneQuery | UnterminatedComment | SeveralQueries | UnterminatedQuote

  datatype Verdict = Accepted(statement: string) | Refused(why: Refusal)

  function TrimSuffix(s: string, suffix: string): string {
    if HasSuffix(s, suffix) then s[..|s| - |suffix|] else s
  }

  function Trimmed(statement: string): string {
    TrimSuffix(TrimSpace(statement), ";")
  }

  /** Of the text between the spaces one final semicolon is taken off. */
  lemma TrimmedRule(statement: string, before: string, core: string, after: string)
    requires Around(statement, before, core, after) && Text.Trimmed(core)
    ensures if core != "" && core[|core| - 1] == ';' then core == Trimmed(statement) + ";" else core == Trimmed(statement)
  {
    TrimSpaceIs(statement, before, core, after);
    if core != "" { assert core[|core| - 1..] == [core[|core| - 1]]; }
  }

  /** Why a text that ends in this mode is refused. */
  function Objection(m: Mode): Option<Refusal> {
    match m
    case Separator => Some(SeveralQueries)
    case Block => Some(UnterminatedComment)
    case Star => Some(UnterminatedComment)
    case Quoted(_) => Some(UnterminatedQuote)
    case _ => None
  }

  function Ending(m: Mode, s: string): Option<Refusal> {
    Objection(Run(m, s))
  }

  /** What the automaton says of a trimmed text. */
  function Judgement(s: string): Verdict {
    match Ending(Code, s)
    case Some(why) => Refused(why)
    case None => Accepted(s)
  }

  predicate Occurs(s: string, pattern: string, k: int) {
    0 <= k && k + |pattern| <= |s| && s[k..k + |pattern|] == pattern
  }

  function Judged(statement: string): Verdict {
    if ByteLen(statement) > MAX_SQL_BYTES then Refused(TooLong)
    else if Trimmed(statement) == "" || '\0' in Trimmed(statement) then Refused(NotOneQuery)
    else Judgement(Trimmed(statement))
  }

  /** The first position of a pattern, or -1. */
  function Index(s: string, pattern: string): (i: int)
    ensures i == -1 || Occurs(s, pattern, i)
    ensures forall k :: Occurs(s, pattern, k) ==> 0 <= i <= k
    decreases s
  {
    if |s| < |pattern| then -1
    else if Occurs(s, pattern, 0) then 0
    else if s == "" then -1
    else
      OccursInRest(s, pattern);
      var i := Index(s[1..], pattern);
      if i < 0 then -1 else i + 1
  }

  lemma SliceOfRest(s: string, k: nat, n: nat)
    requires k + 1 + n <= |s|
    ensures s[k + 1..k + 1 + n] == s[1..][k..k + n]
  {
  }

  lemma OccursInRest(s: string, pattern: string)
    requires s != ""
    ensures forall k :: k >= 0 ==> (Occurs(s[1..], pattern, k) <==> Occurs(s, pattern, k + 1))
    ensures forall k :: k >= 1 && Occurs(s, pattern, k) ==> Occurs(s[1..], pattern, k - 1)
  {
    forall k | k >= 0 ensures Occurs(s[1..], pattern, k) <==> Occurs(s, pattern, k + 1) {
      if k + 1 + |pattern| <= |s| { SliceOfRest(s, k, |pattern|); }
    }
    forall k | k >= 1 && Occurs(s, pattern, k) ensures Occurs(s[1..], pattern, k - 1) {
      assert Occurs(s, pattern, (k - 1) + 1);
    }
  }

  /** A dash, a slash or a closing quote whose next character does not continue it is plain code. */
  lemma PlainCode(m: Mode, s: string)
    requires InCode(m)
    requires s != "" ==> Step(m, s[0]) == FromCode(s[0])
    ensures Ending(m, s) == Ending(Code, s)
  {
  }

  lemma Advance(m: Mode, s: string, i: nat)
    requires i < |s|
    ensures Ending(m, s[i..]) == Ending(Step(m, s[i]), s[i + 1..])
  {
    assert s[i..][1..] == s[i + 1..];
  }

  /** The end of the line that holds position i: its newline, or the end of the text. */
  function NewlineFrom(s: string, i: nat): (n: nat)
    requires i <= |s|
    ensures i <= n <= |s|
    decreases |s| - i
  {
    if i == |s| || s[i] == '\n' then i else NewlineFrom(s, i + 1)
  }

  lemma {:induction false} LineEnds(s: string, i: nat)
    requires i <= |s|
    ensures var n := NewlineFrom(s, i);
      Ending(LineComment, s[i..]) == if n < |s| then Ending(Code, s[n + 1..]) else None
    decreases |s| - i
  {
    if i < |s| {
      Advance(LineComment, s, i);
      if s[i] != '\n' { LineEnds(s, i + 1); }
    }
  }

  /** The scanner's loop over a line comment starts at its first dash. */
  method LineEnd(s: string, start: nat) returns (i: nat)
    requires start + 2 <= |s| && s[start] == s[start + 1] == '-'
    ensures i == NewlineFrom(s, start + 2)
  {
    i := start;
    while i < |s| && s[i] != '\n'
      invariant start <= i <= |s| && NewlineFrom(s, i) == NewlineFrom(s, start)
    {
      i := i + 1;
    }
  }

  /** A block comment ends with the first star and slash after its opening. */
  lemma {:induction false} CommentEnds(s: string)
    ensures var e := Index(s, "*/");
      Ending(Block, s) == if e < 0 then Some(UnterminatedComment) else Ending(Code, s[e + 2..])
  {
    var e := Index(s, "*/");
    if Occurs(s, "*/", 0) {
      assert s[0] == s[0..2][0] && s[1] == s[0..2][1];
      assert Run(Block, s) == Run(Star, s[1..]);
      assert s[1..][1..] == s[2..];
    } else if s != "" {
      CommentEnds(s[1..]);
      IndexOfRest(s);
      if e > 0 { assert s[1..][e + 1..] == s[e + 2..]; }
      if s[0] == '*' { StarAgain(s); }
    }
  }

  /** A star that no slash follows leaves the comment as it was. */
  lemma StarAgain(s: string)
    requires s != "" && s[0] == '*' && !Occurs(s, "*/", 0)
    ensures Ending(Star, s[1..]) == Ending(Block, s[1..])
  {
    if |s| > 1 {
      assert s[0..2] == [s[0], s[1]];
    }
  }

  lemma IndexOfRest(s: string)
    requires s != "" && !Occurs(s, "*/", 0)
    ensures Index(s[1..], "*/") == if Index(s, "*/") < 0 then -1 else Index(s, "*/") - 1
  {
    OccursInRest(s, "*/");
  }

  /** A quote that is not doubled ends its string. */
  lemma QuoteEnds(q: char, s: string)
    requires s == "" || s[0] != q
    ensures Ending(Closing(q), s) == Ending(Code, s)
  {
  }

  lemma {:induction false} BytesConcat(a: string, b: string)
    ensures ByteLen(a + b) == ByteLen(a) + ByteLen(b)
  {
    if a == "" {
      assert a + b == b;
    } else {
      assert (a + b)[1..] == a[1..] + b;
      BytesConcat(a[1..], b);
    }
  }

  lemma {:induction false} TrimLeftFits(s: string)
    ensures ByteLen(TrimLeft(s)) <= ByteLen(s)
  {
    if s != "" { TrimLeftFits(s[1..]); }
  }

  lemma {:induction false} TrimRightFits(s: string)
    ensures ByteLen(TrimRight(s)) <= ByteLen(s)
  {
    if s != "" && IsSpace(s[|s| - 1]) {
      TrimRightFits(s[..|s| - 1]);
      BytesConcat(s[..|s| - 1], s[|s| - 1..]);
      assert s[..|s| - 1] + s[|s| - 1..] == s;
    }
  }

  /** Trimming never lengthens a text, so the second length check of the scanner cannot fail. */
  lemma TrimmedFits(s: string)
    ensures ByteLen(Trimmed(s)) <= ByteLen(s)
  {
    var t := TrimSpace(s);
    TrimLeftFits(s);
    TrimRightFits(TrimLeft(s));
    if HasSuffix(t, ";") {
      BytesConcat(t[..|t| - 1], ";");
      assert t[..|t| - 1] + ";" == t;
    }
  }

  /** The scanner agrees with the automaton on every text: what it accepts and why it refuses. */
  method SingleStatement(statement: string) returns (v: Verdict)
    ensures v == Judged(statement)
    ensures v.Accepted? ==>
      && (forall k :: |OPENING + v.statement| < k <= |Wrapped(v.statement)| ==> Run(Code, Wrapped(v.statement)[..k]) == Code)
      && forall k: nat :: !SeparatorAt(v.statement, k)
  {
    if ByteLen(statement) > MAX_SQL_BYTES { return Refused(TooLong); }
    var s := TrimSpace(statement);
    s := TrimSuffix(s, ";");
    TrimmedFits(statement);
    if s == "" || ByteLen(s) > MAX_SQL_BYTES || '\0' in s { return Refused(NotOneQuery); }
    var objection := Scan(s);
    if objection.Some? { return Refused(objection.value); }
    WrapperIsWhole(s);
    SeparatorInCode(s);
    return Accepted(s);
  }

  // ----- What one turn of the scanner's loop skips -----

  lemma CodeAt(s: string, i: nat)
    requires i < |s|
    requires i + 1 < |s| ==> !(s[i] == s[i + 1] == '-') && !(s[i] == '/' && s[i + 1] == '*')
    ensures Ending(Code, s[i..])
      == match FromCode(s[i])
         case Quoted(q) => Ending(Quoted(q), s[i + 1..])
         case Separator => Some(SeveralQueries)
         case _ => Ending(Code, s[i + 1..])
  {
    Advance(Code, s, i);
    if InCode(FromCode(s[i])) { PlainCode(FromCode(s[i]), s[i + 1..]); }
    if s[i] == ';' { SeparatorStays(s[i + 1..]); }
  }

  lemma QuoteAt(q: char, s: string, i: nat)
    requires i < |s|
    ensures Ending(Quoted(q), s[i..])
      == if s[i] != q then Ending(Quoted(q), s[i + 1..])
         else if i + 1 < |s| && s[i + 1] == q then Ending(Quoted(q), s[i + 2..])
         else Ending(Code, s[i + 1..])
  {
    Advance(Quoted(q), s, i);
    if s[i] == q {
      if i + 1 < |s| && s[i + 1] == q {
        Advance(Closing(q), s, i + 1);
      } else {
        QuoteEnds(q, s[i + 1..]);
      }
    }
  }

  lemma LineCommentAt(s: string, i: nat)
    requires i + 1 < |s| && s[i] == s[i + 1] == '-'
    ensures var n := NewlineFrom(s, i + 2);
      Ending(Code, s[i..]) == if n < |s| then Ending(Code, s[n + 1..]) else None
  {
    Advance(Code, s, i);
    Advance(Dash, s, i + 1);
    LineEnds(s, i + 2);
  }

  lemma BlockCommentAt(s: string, i: nat)
    requires i + 1 < |s| && s[i] == '/' && s[i + 1] == '*'
    ensures var end := Index(s[i + 2..], "*/");
      Ending(Code, s[i..]) == if end < 0 then Some(UnterminatedComment) else Ending(Code, s[i + end + 4..])
  {
    Advance(Code, s, i);
    Advance(Slash, s, i + 1);
    CommentEnds(s[i + 2..]);
    var end := Index(s[i + 2..], "*/");
    if end >= 0 { assert s[i + 2..][end + 2..] == s[i + end + 4..]; }
  }

  /** The loop of the scanner, over a text without NUL. */
  method Scan(s: string) returns (objection: Option<Refusal>)
    requires '\0' !in s
    ensures objection == Ending(Code, s)
  {
    var quote := '\0';
    var i := 0;
    while i < |s|
      invariant 0 <= i <= |s| + 1
      invariant i > |s| ==> quote == '\0' && Ending(Code, s) == None
      invariant i <= |s| ==> Ending(Code, s) == Ending(Within(quote), s[i..])
    {
      var ch := s[i];
      if quote != '\0' {
        QuoteAt(quote, s, i);
        if ch == quote {
          if i + 1 < |s| && s[i + 1] == quote {
            i := i + 2;
            continue;
          }
          quote := '\0';
        }
        i := i + 1;
        continue;
      }
      if ch == '-' && i + 1 < |s| && s[i + 1] == '-' {
        LineCommentAt(s, i);
        i := LineEnd(s, i);
        i := i + 1;
        continue;
      }
      if ch == '/' && i + 1 < |s| && s[i + 1] == '*' {
        BlockCommentAt(s, i);
        var end := Index(s[i + 2..], "*/");
        if end < 0 { return Some(UnterminatedComment); }
        i := i + end + 4;
        continue;
      }
      CodeAt(s, i);
      if ch == '\'' || ch == '"' || ch == '`' {
        quote := ch;
      } else if ch == '[' {
        quote := ']';
      } else if ch == ';' {
        return Some(SeveralQueries);
      }
      i := i + 1;
    }
    if quote != '\0' { return Some(UnterminatedQuote); }
    return None;
  }

  /** The mode that the scanner's quote variable stands for. */
  function Within(quote: char): Mode {
    if quote == '\0' then Code else Quoted(quote)
  }
}
