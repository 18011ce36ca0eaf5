// internal/dotenv/parse.go: the scanner of .env files. A char stands for one byte.
module Dotenv {
  import opened Graphs

  type Env = map<string, string>

  datatype EnvPair = EnvPair(key: string, value: string)

  datatype LineError = Malformed(line: nat) | Unterminated(line: nat)

  datatype Parsed = Ok(pairs: seq<EnvPair>) | Failed(error: LineError)

  // ---- characters and lines ----

  predicate IsVarNameStart(c: char) {
    c == '_' || 'a' <= c <= 'z' || 'A' <= c <= 'Z'
  }

  predicate IsVarNameChar(c: char) {
    IsVarNameStart(c) || '0' <= c <= '9'
  }

  predicate IsSpace(c: char) {
    c == ' ' || c == '\t' || c == '\n' || c == '\r' || c as int == 11 || c as int == 12
  }

  function TrimLeft(s: string): (r: string)
    ensures |r| <= |s|
  {
    if s != "" && (s[0] == ' ' || s[0] == '\t') then TrimLeft(s[1..]) else s
  }

  function TrimSpace(s: string): string {
    if s == "" then ""
    else if IsSpace(s[0]) then TrimSpace(s[1..])
    else if IsSpace(s[|s| - 1]) then TrimSpace(s[..|s| - 1])
    else s
  }

  function TrimCR(s: string): string {
    if s != "" && s[|s| - 1] == '\r' then s[..|s| - 1] else s
  }

  function IndexOf(s: string, c: char): (r: Option<nat>)
    ensures r.Some? ==> r.value < |s|
  {
    if s == "" then None
    else if s[0] == c then Some(0)
    else match IndexOf(s[1..], c) case None => None case Some(k) => Some(k + 1)
  }

  lemma {:induction false} IndexIsFirst(s: string, c: char)
    ensures match IndexOf(s, c) case None => c !in s case Some(k) => s[k] == c && c !in s[..k]
  {
    if s != "" && s[0] != c {
      IndexIsFirst(s[1..], c);
      assert IndexOf(s, c).Some? ==> s[..IndexOf(s, c).value] == [s[0]] + s[1..][..IndexOf(s[1..], c).value];
    }
  }

  /** The lines of a file; a final newline leaves an empty last line. */
  function Split(raw: string): (r: seq<string>)
    ensures |r| > 0
    decreases |raw|
  {
    match IndexOf(raw, '\n')
    case None => [raw]
    case Some(k) => [raw[..k]] + Split(raw[k + 1..])
  }

  lemma Associate(a: string, b: string, c: string)
    ensures a + b + c == a + (b + c)
  {
  }

  // ---- delimited values ----

  /** The text before a closing delimiter, and what follows it on the line. */
  datatype Cut = Cut(content: string, rest: string)

  function Prepend(s: string, cut: Option<Cut>): Option<Cut> {
    match cut
    case None => None
    case Some(c) => Some(Cut(s + c.content, c.rest))
  }

  /** Scans what follows an opening delimiter. A backslash protects the next byte; where that
      is the delimiter, the backslash goes. */
  function Scan(s: string, delim: char): Option<Cut>
    decreases |s|
  {
    if s == "" then None
    else if s[0] == '\\' && |s| > 1 then
      Prepend(if s[1] == delim then [delim] else s[..2], Scan(s[2..], delim))
    else if s[0] == delim then Some(Cut("", s[1..]))
    else Prepend(s[..1], Scan(s[1..], delim))
  }

  method ExtractDelimited(s: string, delim: char) returns (cut: Option<Cut>)
    requires s != ""
    ensures cut == Scan(s[1..], delim)
  {
    var b := "";
    var i := 1;
    PrependsNothing(Scan(s[1..], delim));
    while i < |s|
      invariant 1 <= i <= |s|
      invariant Scan(s[1..], delim) == Prepend(b, Scan(s[i..], delim))
      decreases |s| - i
    {
      var c := s[i];
      ghost var from := s[i..];
      if c == '\\' && i + 1 < |s| {
        var next := s[i + 1];
        var piece := if next == delim then [delim] else [c, next];
        assert from[2..] == s[i + 2..] && from[..2] == [c, next];
        Prepends(b, piece, Scan(s[i + 2..], delim));
        b := b + piece;
        i := i + 2;
        continue;
      }
      assert from[1..] == s[i + 1..] && from[..1] == [c];
      if c == delim {
        assert b + "" == b;
        return Some(Cut(b, s[i + 1..]));
      }
      Prepends(b, [c], Scan(s[i + 1..], delim));
      b := b + [c];
      i := i + 1;
    }
    return None;
  }

  lemma PrependsNothing(cut: Option<Cut>)
    ensures Prepend("", cut) == cut
  {
    if cut.Some? {
      assert "" + cut.value.content == cut.value.content;
    }
  }

  lemma Prepends(a: string, b: string, cut: Option<Cut>)
    ensures Prepend(a, Prepend(b, cut)) == Prepend(a + b, cut)
  {
    if cut.Some? {
      assert a + (b + cut.value.content) == a + b + cut.value.content;
    }
  }

  /** Text after the closing delimiter changes nothing before it. */
  lemma {:induction false} ScanExtends(s: string, t: string, delim: char)
    requires delim != '\\' && Scan(s, delim).Some?
    ensures Scan(s + t, delim) == Some(Cut(Scan(s, delim).value.content, Scan(s, delim).value.rest + t))
    decreases |s|
  {
    if s[0] == '\\' && |s| > 1 {
      ScanExtends(s[2..], t, delim);
      assert (s + t)[2..] == s[2..] + t && (s + t)[..2] == s[..2];
    } else {
      assert (s + t)[1..] == s[1..] + t && (s + t)[..1] == s[..1];
      if s[0] != delim {
        assert |s| > 1;
        assert s[0] != '\\';
        ScanExtends(s[1..], t, delim);
      }
    }
  }

  // ---- values that go on over several lines ----

  /** The opening line and the next n lines, joined by newlines. */
  function Joined(expr: string, lines: seq<string>, idx: nat, n: nat): string
    requires idx + n < |lines|
  {
    if n == 0 then expr else Joined(expr, lines, idx, n - 1) + "\n" + TrimCR(lines[idx + n])
  }

  datatype Block = Block(content: string, linesConsumed: nat)

  /** Scanning the opening line and the next n lines for the closing backtick. */
  function Attempt(expr: string, lines: seq<string>, idx: nat, n: nat): Option<Cut> {
    if expr == "" || idx + n >= |lines| then None
    else
      JoinedIsNonempty(expr, lines, idx, n);
      Scan(Joined(expr, lines, idx, n)[1..], '`')
  }

  lemma JoinedIsNonempty(expr: string, lines: seq<string>, idx: nat, n: nat)
    requires expr != "" && idx + n < |lines|
    ensures Joined(expr, lines, idx, n) != ""
  {
  }

  function Attempts(expr: string, lines: seq<string>, idx: nat): nat -> Option<Cut> {
    (n: nat) => Attempt(expr, lines, idx, n)
  }

  /** The first success, from the n-th attempt on. */
  function FirstClose(attempt: nat -> Option<Cut>, n: nat, limit: nat): Option<Block>
    decreases limit - n
  {
    if n >= limit then None
    else
      match attempt(n)
      case Some(cut) => Some(Block(cut.content, n))
      case None => FirstClose(attempt, n + 1, limit)
  }

  function BlockAt(expr: string, lines: seq<string>, idx: nat): Option<Block> {
    if idx > |lines| then None else FirstClose(Attempts(expr, lines, idx), 0, |lines| - idx)
  }

  lemma FirstCloseUnfolds(attempt: nat -> Option<Cut>, n: nat, limit: nat)
    requires n < limit
    ensures FirstClose(attempt, n, limit) ==
              match attempt(n) case Some(cut) => Some(Block(cut.content, n)) case None => FirstClose(attempt, n + 1,
                  limit)
    ensures n + 1 == limit && attempt(n).None? ==> FirstClose(attempt, n, limit).None?
  {
  }

  /** Tries the first line, the first two, and so on. */
  method ExtractBacktickBlock(expr: string, lines: seq<string>, idx: nat) returns (block: Option<Block>)
    requires expr != "" && idx < |lines|
    ensures block == BlockAt(expr, lines, idx)
  {
    block := RetryLines(expr, lines, idx, Attempts(expr, lines, idx));
  }

  method RetryLines(expr: string, lines: seq<string>, idx: nat, ghost attempt: nat -> Option<Cut>)
    returns (block: Option<Block>)
    requires expr != "" && idx < |lines|
    requires forall n: nat :: idx + n < |lines| ==> attempt(n) == Attempt(expr, lines, idx, n)
    ensures block == FirstClose(attempt, 0, |lines| - idx)
  {
    var joined := expr;
    var linesConsumed := 0;
    while true
      invariant linesConsumed < |lines| - idx && joined == Joined(expr, lines, idx, linesConsumed) != ""
      invariant FirstClose(attempt, 0, |lines| - idx) == FirstClose(attempt, linesConsumed, |lines| - idx)
      decreases |lines| - idx - linesConsumed
    {
      var cut := ExtractDelimited(joined, '`');
      AttemptIs(expr, lines, idx, linesConsumed, joined);
      FirstCloseUnfolds(attempt, linesConsumed, |lines| - idx);
      if cut.Some? {
        return Some(Block(cut.value.content, linesConsumed));
      }
      var nextIdx := idx + linesConsumed + 1;
      if nextIdx >= |lines| {
        return None;
      }
      JoinedStep(expr, lines, idx, linesConsumed, nextIdx);
      joined := joined + "\n" + TrimCR(lines[nextIdx]);
      linesConsumed := linesConsumed + 1;
    }
  }

  lemma JoinedStep(expr: string, lines: seq<string>, idx: nat, n: nat, next: nat)
    requires expr != "" && next == idx + n + 1 && next < |lines|
    ensures Joined(expr, lines, idx, n + 1) == Joined(expr, lines, idx, n) + "\n" + TrimCR(lines[next])
    ensures Joined(expr, lines, idx, n + 1) != ""
  {
  }

  lemma AttemptIs(expr: string, lines: seq<string>, idx: nat, n: nat, joined: string)
    requires expr != "" && idx + n < |lines| && joined == Joined(expr, lines, idx, n) != ""
    ensures Attempt(expr, lines, idx, n) == Scan(joined[1..], '`')
  {
  }

  ghost predicate IsFirst(b: Option<Block>, attempt: nat -> Option<Cut>, n: nat, limit: nat) {
    match b
    case None => forall k: nat :: n <= k < limit ==> attempt(k).None?
    case Some(block) =>
      && n <= block.linesConsumed < limit && attempt(block.linesConsumed).Some?
      && attempt(block.linesConsumed).value.content == block.content
      && forall k: nat :: n <= k < block.linesConsumed ==> attempt(k).None?
  }

  lemma {:induction false} FirstCloseIsFirst(attempt: nat -> Option<Cut>, n: nat, limit: nat)
    requires n <= limit
    ensures IsFirst(FirstClose(attempt, n, limit), attempt, n, limit)
    decreases limit - n
  {
    if n < limit && attempt(n).None? {
      FirstCloseIsFirst(attempt, n + 1, limit);
    }
  }

  /** What joining m lines adds to joining n. */
  function JoinedTail(lines: seq<string>, idx: nat, n: nat, m: nat): string
    requires n <= m && idx + m < |lines|
  {
    if n == m then "" else JoinedTail(lines, idx, n, m - 1) + ("\n" + TrimCR(lines[idx + m]))
  }

  lemma {:induction false} JoinedGoesOn(expr: string, lines: seq<string>, idx: nat, n: nat, m: nat)
    requires n <= m && idx + m < |lines|
    ensures Joined(expr, lines, idx, m) == Joined(expr, lines, idx, n) + JoinedTail(lines, idx, n, m)
  {
    if n < m {
      JoinedGoesOn(expr, lines, idx, n, m - 1);
      Associate(Joined(expr, lines, idx, m - 1), "\n", TrimCR(lines[idx + m]));
      Associate(Joined(expr, lines, idx, n), JoinedTail(lines, idx, n, m - 1), "\n" + TrimCR(lines[idx + m]));
    }
  }

  /** More lines never change a value that fewer close. */
  lemma ClosedStays(expr: string, lines: seq<string>, idx: nat, n: nat, m: nat)
    requires n <= m && idx + m < |lines| && Attempt(expr, lines, idx, n).Some?
    ensures Attempt(expr, lines, idx, m).Some?
    ensures Attempt(expr, lines, idx, m).value.content == Attempt(expr, lines, idx, n).value.content
  {
    JoinedIsNonempty(expr, lines, idx, n);
    JoinedGoesOn(expr, lines, idx, n, m);
    var short, t := Joined(expr, lines, idx, n), JoinedTail(lines, idx, n, m);
    assert (short + t)[1..] == short[1..] + t;
    ScanExtends(short[1..], t, '`');
  }

  /** Where success lasts, trying until it comes is as good as one try at the end. */
  ghost predicate Lasts(attempt: nat -> Option<Cut>, limit: nat) {
    forall n: nat, m: nat :: n <= m < limit && attempt(n).Some? ==>
      attempt(m).Some? && attempt(m).value.content == attempt(n).value.content
  }

  lemma LastingIsOnePass(attempt: nat -> Option<Cut>, limit: nat, k: nat)
    requires Lasts(attempt, limit) && k < limit
    ensures attempt(k).Some? <==>
              FirstClose(attempt, 0, limit).Some? && FirstClose(attempt, 0, limit).value.linesConsumed <= k
    ensures attempt(k).Some? ==> attempt(k).value.content == FirstClose(attempt, 0, limit).value.content
  {
    FirstCloseIsFirst(attempt, 0, limit);
    var b := FirstClose(attempt, 0, limit);
    if b.Some? {
      assert attempt(b.value.linesConsumed).Some?;
    }
  }

  lemma AttemptsLast(expr: string, lines: seq<string>, idx: nat)
    requires idx <= |lines|
    ensures Lasts(Attempts(expr, lines, idx), |lines| - idx)
  {
    var attempt := Attempts(expr, lines, idx);
    forall n: nat, m: nat | n <= m < |lines| - idx && attempt(n).Some?
      ensures attempt(m).Some? && attempt(m).value.content == attempt(n).value.content {
      ClosedStays(expr, lines, idx, n, m);
    }
  }

  /** Retrying line by line agrees with one pass over any number of lines, all the remaining ones
      in particular: the pass finds a close just if the retries did within as many lines, and then
      with the same content. So the count is the least that closes the value, and the retries
      fail just if the pass over everything fails. */
  lemma BlockIsOnePass(expr: string, lines: seq<string>, idx: nat, k: nat)
    requires expr != "" && idx + k < |lines|
    ensures var b, pass := BlockAt(expr, lines, idx), Attempt(expr, lines, idx, k);
            && (pass.Some? <==> b.Some? && b.value.linesConsumed <= k)
            && (pass.Some? ==> pass.value.content == b.value.content)
  {
    AttemptsLast(expr, lines, idx);
    LastingIsOnePass(Attempts(expr, lines, idx), |lines| - idx, k);
  }

  // ---- escapes ----

  /** What a backslash before c stands for, in a double-quoted value. */
  function Escaped(c: char): Option<char> {
    if c == 'n' then Some('\n')
    else if c == 'r' then Some('\r')
    else if c == 't' then Some('\t')
    else if c == '\\' then Some('\\')
    else None
  }

  function Unescape(s: string): string
    decreases |s|
  {
    if s == "" then ""
    else if s[0] == '\\' && |s| > 1 && Escaped(s[1]).Some? then [Escaped(s[1]).value] + Unescape(s[2..])
    else [s[0]] + Unescape(s[1..])
  }

  lemma UnescapeUnfolds(s: string, i: nat)
    requires i < |s|
    ensures Unescape(s[i..]) ==
              if s[i] == '\\' && i + 1 < |s|
                  && Escaped(s[i + 1]).Some? then [Escaped(s[i + 1]).value] + Unescape(s[i + 2..])
              else [s[i]] + Unescape(s[i + 1..])
  {
    assert s[i..][1..] == s[i + 1..];
    if i + 1 < |s| {
      assert s[i..][2..] == s[i + 2..];
    }
  }

  method ApplyEscapes(s: string) returns (r: string)
    ensures r == Unescape(s)
  {
    r := "";
    var i := 0;
    assert s[0..] == s;
    while i < |s|
      invariant i <= |s| && Unescape(s) == r + Unescape(s[i..])
    {
      UnescapeUnfolds(s, i);
      var c := s[i];
      if c == '\\' && i + 1 < |s| && Escaped(s[i + 1]).Some? {
        Associate(r, [Escaped(s[i + 1]).value], Unescape(s[i + 2..]));
        r := r + [Escaped(s[i + 1]).value];
        i := i + 2;
        continue;
      }
      Associate(r, [c], Unescape(s[i + 1..]));
      r := r + [c];
      i := i + 1;
    }
  }

  // ---- interpolation ----

  /** Keys of the same file come first, then the environment. */
  function LookupVar(name: string, resolved: Env, env: Env): Option<string> {
    if name in resolved then Some(resolved[name])
    else if name in env then Some(env[name])
    else None
  }

  function Find(s: string, sub: string): (r: Option<nat>)
    ensures r.Some? ==> r.value + |sub| <= |s|
    decreases |s|
  {
    if |s| < |sub| then None
    else if s[..|sub|] == sub then Some(0)
    else if s == "" then None
    else match Find(s[1..], sub) case None => None case Some(k) => Some(k + 1)
  }

  datatype BraceOp = NoOp | OrIfEmpty | OrIfUnset | AltIfFull | AltIfSet

  datatype Brace = Brace(name: string, op: BraceOp, arg: string)

  function SplitAt(inner: string, k: nat, width: nat, op: BraceOp): Brace
    requires k + width <= |inner|
  {
    Brace(inner[..k], op, inner[k + width..])
  }

  /** The operators are looked for one kind after the other, wherever they stand. */
  function SplitBraceOperator(inner: string): Brace {
    if Find(inner, ":-").Some? then SplitAt(inner, Find(inner, ":-").value, 2, OrIfEmpty)
    else if Find(inner, ":+").Some? then SplitAt(inner, Find(inner, ":+").value, 2, AltIfFull)
    else if Find(inner, "-").Some? then SplitAt(inner, Find(inner, "-").value, 1, OrIfUnset)
    else if Find(inner, "+").Some? then SplitAt(inner, Find(inner, "+").value, 1, AltIfSet)
    else Brace(inner, NoOp, "")
  }

  function ResolveBraceExpr(inner: string, resolved: Env, env: Env): string {
    var b := SplitBraceOperator(inner);
    var value := LookupVar(b.name, resolved, env);
    match b.op
    case NoOp => if value.Some? then value.value else ""
    case OrIfEmpty => if value.None? || value.value == "" then b.arg else value.value
    case OrIfUnset => if value.None? then b.arg else value.value
    case AltIfFull => if value.Some? && value.value != "" then b.arg else ""
    case AltIfSet => if value.Some? then b.arg else ""
  }

  function NameLength(s: string): (n: nat)
    ensures n <= |s|
  {
    if s != "" && IsVarNameChar(s[0]) then 1 + NameLength(s[1..]) else 0
  }

  /** What begins at the start of s: a plain byte, or an expansion and the bytes it takes. */
  datatype Piece = Piece(text: string, width: nat)

  function FirstPiece(s: string, resolved: Env, env: Env): (p: Piece)
    requires s != ""
    ensures 0 < p.width <= |s|
  {
    if s[0] == '$' && |s| > 1 && s[1] == '{' && IndexOf(s[2..], '}').Some? then
      var close := IndexOf(s[2..], '}').value + 2;
      Piece(ResolveBraceExpr(s[2..close], resolved, env), close + 1)
    else if s[0] == '$' && |s| > 1 && IsVarNameStart(s[1]) then
      var j := 1 + NameLength(s[1..]);
      Piece(match LookupVar(s[1..j], resolved, env) case Some(v) => v case None => "", j)
    else Piece([s[0]], 1)
  }

  function Interpolate(s: string, resolved: Env, env: Env): string
    decreases |s|
  {
    if s == "" then ""
    else
      var p := FirstPiece(s, resolved, env);
      p.text + Interpolate(s[p.width..], resolved, env)
  }

  lemma InterpolateUnfolds(s: string, i: nat, text: string, next: nat, resolved: Env, env: Env)
    requires i < next <= |s| && Piece(text, next - i) == FirstPiece(s[i..], resolved, env)
    ensures Interpolate(s[i..], resolved, env) == text + Interpolate(s[next..], resolved, env)
  {
    assert s[i..][next - i..] == s[next..];
  }

  method ResolveInterpolation(s: string, resolved: Env, env: Env) returns (r: string)
    ensures r == Interpolate(s, resolved, env)
  {
    r := "";
    var i := 0;
    assert s[0..] == s;
    while i < |s|
      invariant i <= |s| && Interpolate(s, resolved, env) == r + Interpolate(s[i..], resolved, env)
    {
      var text, next := ReadPiece(s, i, resolved, env);
      InterpolateUnfolds(s, i, text, next, resolved, env);
      Associate(r, text, Interpolate(s[next..], resolved, env));
      r := r + text;
      i := next;
    }
  }

  /** One turn of the scan: what stands at position i becomes, and where the scan goes on. */
  method ReadPiece(s: string, i: nat, resolved: Env, env: Env) returns (text: string, next: nat)
    requires i < |s|
    ensures i < next <= |s| && Piece(text, next - i) == FirstPiece(s[i..], resolved, env)
  {
    ghost var from := s[i..];
    var c := s[i];
    if c != '$' || i + 1 >= |s| {
      return [c], i + 1;
    }
    assert from[1..] == s[i + 1..] && from[2..] == s[i + 2..];
    if s[i + 1] == '{' {
      var close := IndexOf(s[i + 2..], '}');
      if close.None? {
        return [c], i + 1;
      }
      var closeIdx := close.value + i + 2;
      assert from[2..close.value + 2] == s[i + 2..closeIdx];
      return ResolveBraceExpr(s[i + 2..closeIdx], resolved, env), closeIdx + 1;
    } else if IsVarNameStart(s[i + 1]) {
      var j := i + 1 + NameLength(s[i + 1..]);
      assert from[1..j - i] == s[i + 1..j];
      var value := LookupVar(s[i + 1..j], resolved, env);
      return if value.Some? then value.value else "", j;
    } else {
      return [c], i + 1;
    }
  }

  /** A dollar sign that begins an expansion. */
  predicate Active(s: string, i: nat)
    requires i < |s|
  {
    && s[i] == '$' && i + 1 < |s|
    && (IsVarNameStart(s[i + 1]) || (s[i + 1] == '{' && '}' in s[i + 2..]))
  }

  predicate Inert(s: string) {
    forall i :: 0 <= i < |s| ==> !Active(s, i)
  }

  lemma InertTail(s: string)
    requires s != ""
    ensures Inert(s) <==> !Active(s, 0) && Inert(s[1..])
  {
    forall i | 1 <= i < |s| ensures Active(s, i) <==> Active(s[1..], i - 1) {
      if i + 1 < |s| {
        assert s[i + 2 - 1 + 1..] == s[1..][i + 1..];
      }
    }
    if Inert(s) {
      forall i | 0 <= i < |s[1..]| ensures !Active(s[1..], i) {
        assert !Active(s, i + 1);
      }
    }
  }

  lemma InertStarts(s: string, resolved: Env, env: Env)
    requires s != "" && !Active(s, 0)
    ensures FirstPiece(s, resolved, env) == Piece([s[0]], 1)
  {
    if |s| > 1 {
      IndexIsFirst(s[2..], '}');
    }
  }

  lemma ActiveStarts(s: string)
    requires s != "" && Active(s, 0)
    ensures |FirstPiece(s, map[], map[]).text| < FirstPiece(s, map[], map[]).width
  {
    IndexIsFirst(s[2..], '}');
    if s[1] == '{' {
      BraceShrinks(s[2..IndexOf(s[2..], '}').value + 2]);
    }
  }

  lemma BraceShrinks(inner: string)
    ensures |ResolveBraceExpr(inner, map[], map[])| <= |inner|
  {
  }

  /** Text without an active dollar sign stays as it is, whatever is defined. */
  lemma {:induction false} InertStays(s: string, resolved: Env, env: Env)
    requires Inert(s)
    ensures Interpolate(s, resolved, env) == s
    decreases |s|
  {
    if s != "" {
      InertTail(s);
      InertStarts(s, resolved, env);
      InertStays(s[1..], resolved, env);
      assert [s[0]] + s[1..] == s;
    }
  }

  /** Where nothing is defined, an active dollar sign always makes the text shorter. */
  lemma {:induction false} ActiveShrinks(s: string)
    ensures |Interpolate(s, map[], map[])| <= |s|
    ensures !Inert(s) ==> |Interpolate(s, map[], map[])| < |s|
    decreases |s|
  {
    if s != "" {
      var p := FirstPiece(s, map[], map[]);
      ActiveShrinks(s[p.width..]);
      InertTail(s);
      if Active(s, 0) {
        ActiveStarts(s);
      } else {
        InertStarts(s, map[], map[]);
      }
    }
  }

  // ---- the four operators ----

  function OpText(op: BraceOp): string {
    match op
    case NoOp => ""
    case OrIfEmpty => ":-"
    case OrIfUnset => "-"
    case AltIfFull => ":+"
    case AltIfSet => "+"
  }

  predicate IsIdentifier(s: string) {
    s != "" && IsVarNameStart(s[0]) && forall i :: 0 <= i < |s| ==> IsVarNameChar(s[i])
  }

  /** An operator that is looked for earlier stands in the argument. */
  predicate Overtaken(op: BraceOp, arg: string) {
    match op
    case NoOp => false
    case OrIfEmpty => false
    case AltIfFull => Find(arg, ":-").Some?
    case OrIfUnset => Find(arg, ":-").Some? || Find(arg, ":+").Some?
    case AltIfSet => Find(arg, ":-").Some? || Find(arg, ":+").Some? || Find(arg, "-").Some?
  }

  /** What is not in a name is found in the rest, where it is found there. */
  lemma {:induction false} FindAfterName(name: string, rest: string, sub: string)
    requires (forall i :: 0 <= i < |name| ==> IsVarNameChar(name[i])) && sub != "" && !IsVarNameChar(sub[0])
    ensures Find(name + rest, sub) == match Find(rest, sub) case None => None case Some(k) => Some(|name| + k)
  {
    if name == "" {
      assert name + rest == rest;
    } else {
      assert (name + rest)[1..] == name[1..] + rest && (name + rest)[0] == name[0];
      FindAfterName(name[1..], rest, sub);
      if |name + rest| >= |sub| {
        assert (name + rest)[..|sub|][0] == name[0];
      } else {
        FindTooShort(rest, sub);
      }
    }
  }

  lemma FindTooShort(s: string, sub: string)
    requires |s| < |sub|
    ensures Find(s, sub).None?
  {
  }

  lemma FindAtStart(sub: string, arg: string)
    ensures Find(sub + arg, sub) == Some(0)
  {
    assert (sub + arg)[..|sub|] == sub;
  }

  /** Behind an operator that it cannot overlap, an operator is found in the argument or not at all. */
  lemma FindAfterOp(op: string, sub: string, arg: string)
    requires (op == ":+" && sub == ":-") || (op == "-" && (sub == ":-" || sub == ":+"))
          || (op == "+" && (sub == ":-" || sub == ":+" || sub == "-"))
    ensures Find(op + arg, sub).Some? <==> Find(arg, sub).Some?
  {
    var s := op + arg;
    if op == ":+" {
      assert s[1..] == "+" + arg && s[1..][1..] == arg;
      assert |s| >= 2 && s[..2] == ":+";
      FindSkips("+" + arg, sub);
    } else {
      assert s[1..] == arg;
      FindSkips(s, sub);
    }
  }

  lemma FindSkips(s: string, sub: string)
    requires s != "" && sub != "" && s[0] != sub[0]
    ensures Find(s, sub).Some? <==> Find(s[1..], sub).Some?
  {
    if |s| >= |sub| {
      assert s[..|sub|][0] == s[0];
    } else {
      FindTooShort(s[1..], sub);
    }
  }

  lemma OperatorsBehindOp(op: BraceOp, arg: string)
    requires !op.NoOp?
    ensures var rest := OpText(op) + arg;
            && Find(rest, OpText(op)) == Some(0)
            && (Overtaken(op, arg) <==>
                  || (op != OrIfEmpty && Find(rest, ":-").Some?)
                  || ((op.OrIfUnset? || op.AltIfSet?) && Find(rest, ":+").Some?)
                  || (op.AltIfSet? && Find(rest, "-").Some?))
  {
    FindAtStart(OpText(op), arg);
    match op
    case OrIfEmpty =>
    case AltIfFull => FindAfterOp(":+", ":-", arg);
    case OrIfUnset =>
      FindAfterOp("-", ":-", arg);
      FindAfterOp("-", ":+", arg);
    case AltIfSet =>
      FindAfterOp("+", ":-", arg);
      FindAfterOp("+", ":+", arg);
      FindAfterOp("+", "-", arg);
  }

  /** A well-formed expression is split as POSIX reads it if and only if its argument holds no
      operator that is looked for earlier. */
  lemma SplitsAsWrittenIff(name: string, op: BraceOp, arg: string)
    requires IsIdentifier(name) && !op.NoOp?
    ensures SplitBraceOperator(name + (OpText(op) + arg)) == Brace(name, op, arg) <==> !Overtaken(op, arg)
  {
    var rest := OpText(op) + arg;
    FindAfterName(name, rest, ":-");
    FindAfterName(name, rest, ":+");
    FindAfterName(name, rest, "-");
    FindAfterName(name, rest, "+");
    OperatorsBehindOp(op, arg);
    assert (name + rest)[..|name|] == name && (name + rest)[|name| + |OpText(op)|..] == arg;
  }

  // ---- values and lines ----

  /** A comment begins at a hash right after a space. */
  function StripBare(s: string): string {
    if s == "" || (|s| > 1 && s[0] == ' ' && s[1] == '#') then "" else [s[0]] + StripBare(s[1..])
  }

  lemma StripBareUnfolds(s: string, i: nat)
    requires i < |s|
    ensures StripBare(s[i..]) == if i + 1 < |s| && s[i] == ' '
              && s[i + 1] == '#' then "" else [s[i]] + StripBare(s[i + 1..])
  {
    assert s[i..][1..] == s[i + 1..];
  }

  lemma StripBareStep(s: string, i: nat)
    requires 1 <= i < |s|
    ensures s[..i - 1] + StripBare(s[i - 1..]) == if s[i] == '#'
              && s[i - 1] == ' ' then s[..i - 1] else s[..i] + StripBare(s[i..])
  {
    StripBareUnfolds(s, i - 1);
    Associate(s[..i - 1], [s[i - 1]], StripBare(s[i..]));
    assert s[..i] == s[..i - 1] + [s[i - 1]];
  }

  lemma StripBareEnds(s: string)
    requires s != ""
    ensures s[..|s| - 1] + StripBare(s[|s| - 1..]) == s
  {
    StripBareUnfolds(s, |s| - 1);
    assert s[|s|..] == "" && s == s[..|s| - 1] + [s[|s| - 1]];
  }

  method StripBareComment(s: string) returns (r: string)
    ensures r == StripBare(s)
  {
    if s == "" {
      return s;
    }
    var i := 1;
    assert s[..0] == "" && s[0..] == s;
    while i < |s|
      invariant 1 <= i <= |s| && StripBare(s) == s[..i - 1] + StripBare(s[i - 1..])
    {
      StripBareStep(s, i);
      if s[i] == '#' && s[i - 1] == ' ' {
        return s[..i - 1];
      }
      i := i + 1;
    }
    StripBareEnds(s);
    return s;
  }

  function StripQuoted(content: string, rest: string): string {
    if TrimSpace(StripBare(rest)) == "" then content else content + StripBare(rest)
  }

  function ValueOf(raw: string, resolved: Env, env: Env): Option<string> {
    var trimmed := TrimLeft(raw);
    if trimmed == "" then Some("")
    else if trimmed[0] == '`' then
      match Scan(trimmed[1..], '`') case None => None case Some(cut) => Some(cut.content)
    else if trimmed[0] == '\'' then
      match Scan(trimmed[1..], '\'') case None => None case Some(cut) => Some(StripQuoted(cut.content, cut.rest))
    else if trimmed[0] == '"' then
      match Scan(trimmed[1..], '"')
      case None => None
      case Some(cut) => Some(Interpolate(Unescape(StripQuoted(cut.content, cut.rest)), resolved, env))
    else Some(Interpolate(StripBare(trimmed), resolved, env))
  }

  method StripQuotedTrailingComment(content: string, rest: string) returns (r: string)
    ensures r == StripQuoted(content, rest)
  {
    var stripped := StripBareComment(rest);
    return if TrimSpace(stripped) == "" then content else content + stripped;
  }

  method ParseValue(raw: string, resolved: Env, env: Env) returns (value: Option<string>)
    ensures value == ValueOf(raw, resolved, env)
  {
    var trimmed := TrimLeft(raw);
    if trimmed == "" {
      return Some("");
    }
    var c := trimmed[0];
    if c != '`' && c != '\'' && c != '"' {
      var bare := StripBareComment(trimmed);
      var r := ResolveInterpolation(bare, resolved, env);
      return Some(r);
    }
    var cut := ExtractDelimited(trimmed, c);
    if cut.None? {
      return None;
    }
    if c == '`' {
      return Some(cut.value.content);
    }
    var content := StripQuotedTrailingComment(cut.value.content, cut.value.rest);
    if c == '"' {
      content := ApplyEscapes(content);
      content := ResolveInterpolation(content, resolved, env);
    }
    return Some(content);
  }

  /** What one entry of the file turns out to be, with the number of further lines it takes. */
  datatype Item = Skip | Pair(pair: EnvPair, linesConsumed: nat) | Wrong(error: LineError)

  datatype LineKind = Blank | NoAssignment | Assignment(key: string, expr: string)

  function Classify(line: string): LineKind {
    var trimmed := TrimLeft(TrimCR(line));
    if trimmed == "" || trimmed[0] == '#' then Blank
    else
      match IndexOf(trimmed, '=')
      case None => NoAssignment
      case Some(eq) => Assignment(TrimSpace(trimmed[..eq]), trimmed[eq + 1..])
  }

  /** The entry that begins on the first of the remaining lines. */
  function ItemAt(lines: seq<string>, lineNo: nat, resolved: Env, env: Env): (item: Item)
    ensures lines != [] && item.Pair? ==> item.linesConsumed < |lines|
  {
    if lines == [] then Skip
    else
      match Classify(lines[0])
      case Blank => Skip
      case NoAssignment => Wrong(Malformed(lineNo))
      case Assignment(key, expr) => PairAt(key, expr, ValueOf(expr, resolved, env), lines, lineNo)
  }

  /** A value that does not end on its line is an error, unless it is a backtick block. */
  function PairAt(key: string, expr: string, value: Option<string>, lines: seq<string>, lineNo: nat): (item: Item)
    requires lines != []
    ensures item.Pair? ==> item.linesConsumed < |lines|
  {
    var trimmed := TrimLeft(expr);
    if value.Some? then Pair(EnvPair(key, value.value), 0)
    else if trimmed == "" || trimmed[0] != '`' then Wrong(Unterminated(lineNo))
    else
      match BlockAt(trimmed, lines, 0)
      case None => Wrong(Unterminated(lineNo))
      case Some(block) =>
        FirstCloseIsFirst(Attempts(trimmed, lines, 0), 0, |lines|);
        Pair(EnvPair(key, block.content), block.linesConsumed)
  }

  function Prefixed(pairs: seq<EnvPair>, rest: Parsed): Parsed {
    if rest.Ok? then Ok(pairs + rest.pairs) else rest
  }

  /** Reads the entry that begins on the first of some lines. */
  type Reader = read: (seq<string>, nat, Env, Env) -> Item | Steady(read) witness (lines, lineNo, resolved, env) => Skip

  ghost predicate Steady(read: (seq<string>, nat, Env, Env) -> Item) {
    forall lines, lineNo, resolved, env :: lines != [] && read(lines, lineNo, resolved, env).Pair? ==>
      read(lines, lineNo, resolved, env).linesConsumed < |lines|
  }

  /** Entry after entry; every entry sees the keys before it. */
  function ReadAll(read: Reader, lines: seq<string>, lineNo: nat, resolved: Env, env: Env): Parsed
    decreases |lines|
  {
    if lines == [] then Ok([])
    else
      match read(lines, lineNo, resolved, env)
      case Skip => ReadAll(read, lines[1..], lineNo + 1, resolved, env)
      case Wrong(error) => Failed(error)
      case Pair(pair, n) =>
        Prefixed([pair], ReadAll(read, lines[n + 1..], lineNo + n + 1, resolved[pair.key := pair.value], env))
  }

  function Parse(raw: string, env: Env): Parsed {
    ReadAll(ItemAt, Split(raw), 1, map[], env)
  }

  lemma {:induction false} JoinedShifts(expr: string, lines: seq<string>, idx: nat, n: nat)
    requires idx + n < |lines|
    ensures Joined(expr, lines, idx, n) == Joined(expr, lines[idx..], 0, n)
  {
    if n > 0 {
      JoinedShifts(expr, lines, idx, n - 1);
    }
  }

  lemma {:induction false} SameAttempts(a: nat -> Option<Cut>, b: nat -> Option<Cut>, n: nat, limit: nat)
    requires forall k: nat :: k < limit ==> a(k) == b(k)
    ensures FirstClose(a, n, limit) == FirstClose(b, n, limit)
    decreases limit - n
  {
    if n < limit {
      SameAttempts(a, b, n + 1, limit);
    }
  }

  lemma BlockShifts(expr: string, lines: seq<string>, idx: nat)
    requires idx < |lines|
    ensures BlockAt(expr, lines, idx) == BlockAt(expr, lines[idx..], 0)
  {
    var a, b := Attempts(expr, lines, idx), Attempts(expr, lines[idx..], 0);
    forall k: nat | k < |lines| - idx ensures a(k) == b(k) {
      JoinedShifts(expr, lines, idx, k);
    }
    SameAttempts(a, b, 0, |lines| - idx);
  }

  method ReadItem(lines: seq<string>, idx: nat, resolved: Env, env: Env) returns (item: Item)
    requires idx < |lines|
    ensures item == ItemAt(lines[idx..], idx + 1, resolved, env)
  {
    var lineNo := idx + 1;
    var kind := ReadLine(lines[idx]);
    match kind
    case Blank => item := Skip;
    case NoAssignment => item := Wrong(Malformed(lineNo));
    case Assignment(key, valueExpr) => item := ReadPair(key, valueExpr, lines, idx, resolved, env);
  }

  method ReadLine(line0: string) returns (kind: LineKind)
    ensures kind == Classify(line0)
  {
    var line := TrimCR(line0);
    var trimmed := TrimLeft(line);
    if trimmed == "" {
      return Blank;
    }
    if trimmed[0] == '#' {
      return Blank;
    }
    var eq := IndexOf(trimmed, '=');
    if eq.None? {
      return NoAssignment;
    }
    return Assignment(TrimSpace(trimmed[..eq.value]), trimmed[eq.value + 1..]);
  }

  method ReadPair(key: string, valueExpr: string, lines: seq<string>, idx: nat, resolved: Env, env: Env)
    returns (item: Item)
    requires idx < |lines|
    ensures item == PairAt(key, valueExpr, ValueOf(valueExpr, resolved, env), lines[idx..], idx + 1)
  {
    var value := ParseValue(valueExpr, resolved, env);
    if value.Some? {
      return Pair(EnvPair(key, value.value), 0);
    }
    var trimmedExpr := TrimLeft(valueExpr);
    if trimmedExpr != "" && trimmedExpr[0] == '`' {
      var block := ExtractBacktickBlock(trimmedExpr, lines, idx);
      BlockShifts(trimmedExpr, lines, idx);
      if block.Some? {
        return Pair(EnvPair(key, block.value.content), block.value.linesConsumed);
      }
    }
    return Wrong(Unterminated(idx + 1));
  }

  method ParseFile(raw: string, env: Env) returns (r: Parsed)
    ensures r == Parse(raw, env)
  {
    r := ReadEntries(Split(raw), env, ItemAt);
  }

  ghost predicate ReadsItems(read: Reader) {
    forall lines, lineNo, resolved, env {:trigger ItemAt(lines, lineNo, resolved, env)} ::
      read(lines, lineNo, resolved, env) == ItemAt(lines, lineNo, resolved, env)
  }

  method ReadNext(lines: seq<string>, idx: nat, resolved: Env, env: Env, ghost read: Reader) returns (item: Item)
    requires idx < |lines| && ReadsItems(read)
    ensures item == read(lines[idx..], idx + 1, resolved, env)
  {
    item := ReadItem(lines, idx, resolved, env);
  }

  method ReadEntries(lines: seq<string>, env: Env, ghost read: Reader) returns (r: Parsed)
    requires ReadsItems(read)
    ensures r == ReadAll(read, lines, 1, map[], env)
  {
    var pairs: seq<EnvPair> := [];
    var resolved: Env := map[];
    var idx := 0;
    ghost var whole := ReadAll(read, lines, 1, map[], env);
    RemainingStarts(read, lines, env);
    while idx < |lines|
      invariant Remaining(read, whole, pairs, lines, idx, resolved, env)
      decreases |lines| - idx
    {
      var item := ReadNext(lines, idx, resolved, env, read);
      RemainingStep(read, whole, pairs, lines, idx, resolved, env, item);
      if item.Skip? {
        idx := idx + 1;
      } else if item.Wrong? {
        return Failed(item.error);
      } else {
        pairs := pairs + [item.pair];
        resolved := resolved[item.pair.key := item.pair.value];
        idx := idx + item.linesConsumed + 1;
      }
    }
    RemainingEnds(read, whole, pairs, lines, idx, resolved, env);
    return Ok(pairs);
  }

  /** The state of the loop: the pairs so far, and what the remaining lines still bring. */
  ghost predicate Remaining(read: Reader, whole: Parsed, pairs: seq<EnvPair>, lines: seq<string>, idx: nat,
                            resolved: Env, env: Env)
  {
    idx <= |lines| && whole == Prefixed(pairs, ReadAll(read, lines[idx..], idx + 1, resolved, env))
  }

  lemma RemainingStarts(read: Reader, lines: seq<string>, env: Env)
    ensures Remaining(read, ReadAll(read, lines, 1, map[], env), [], lines, 0, map[], env)
  {
    assert lines[0..] == lines;
    PrefixesNothing(ReadAll(read, lines, 1, map[], env));
  }

  lemma RemainingEnds(read: Reader, whole: Parsed, pairs: seq<EnvPair>, lines: seq<string>, idx: nat, resolved: Env,
                      env: Env)
    requires idx == |lines| && Remaining(read, whole, pairs, lines, idx, resolved, env)
    ensures whole == Ok(pairs)
  {
    assert lines[idx..] == [] && pairs + [] == pairs;
  }

  lemma RemainingStep(read: Reader, whole: Parsed, pairs: seq<EnvPair>, lines: seq<string>, idx: nat, resolved: Env,
                      env: Env, item: Item)
    requires idx < |lines| && Remaining(read, whole, pairs, lines, idx, resolved, env)
    requires item == read(lines[idx..], idx + 1, resolved, env)
    ensures item.Skip? ==> Remaining(read, whole, pairs, lines, idx + 1, resolved, env)
    ensures item.Wrong? ==> whole == Failed(item.error)
    ensures item.Pair? ==>
              Remaining(read, whole, pairs + [item.pair], lines, idx + item.linesConsumed + 1,
                  resolved[item.pair.key := item.pair.value], env)
  {
    var rest := lines[idx..];
    match item
    case Skip => assert rest[1..] == lines[idx + 1..];
    case Wrong(_) =>
    case Pair(pair, n) =>
      assert rest[n + 1..] == lines[idx + n + 1..];
      PrefixesAdd(pairs, [pair],
          ReadAll(read, lines[idx + n + 1..], idx + n + 2, resolved[pair.key := pair.value], env));
  }

  lemma PrefixesNothing(rest: Parsed)
    ensures Prefixed([], rest) == rest
  {
    if rest.Ok? {
      assert [] + rest.pairs == rest.pairs;
    }
  }

  lemma PrefixesAdd(a: seq<EnvPair>, b: seq<EnvPair>, rest: Parsed)
    ensures Prefixed(a, Prefixed(b, rest)) == Prefixed(a + b, rest)
  {
    if rest.Ok? {
      assert a + (b + rest.pairs) == a + b + rest.pairs;
    }
  }

  // ---- printing, and reading back ----

  /** A key and its value, printed in double quotes or, as it is, between backticks. */
  datatype Entry = Entry(key: string, value: string, block: bool)

  function EscapeChar(c: char): string {
    if c == '"' then "\\\""
    else if c == '\\' then "\\\\"
    else if c == '\n' then "\\n"
    else if c == '\r' then "\\r"
    else if c == '\t' then "\\t"
    else [c]
  }

  function Escape(v: string): string {
    if v == "" then "" else EscapeChar(v[0]) + Escape(v[1..])
  }

  function Delimited(e: Entry): string {
    if e.block then "`" + e.value + "`" else "\"" + Escape(e.value) + "\""
  }

  function EntryText(e: Entry): string {
    e.key + "=" + Delimited(e)
  }

  function Print(entries: seq<Entry>): string {
    if entries == [] then "" else EntryText(entries[0]) + "\n" + Print(entries[1..])
  }

  /** Every backslash protects a byte of the text itself. */
  predicate Paired(v: string)
    decreases |v|
  {
    v == "" || if v[0] == '\\' then |v| > 1 && Paired(v[2..]) else Paired(v[1..])
  }

  /** Backticks take a text literally if it holds none itself, does not end in an open escape,
      and has no carriage return at the end of a line. */
  predicate Literal(v: string) {
    '`' !in v && Paired(v) && NoCRLF(v)
  }

  predicate NoCRLF(v: string) {
    |v| < 2 || (!(v[0] == '\r' && v[1] == '\n') && NoCRLF(v[1..]))
  }

  predicate Printable(e: Entry) {
    IsIdentifier(e.key) && if e.block then Literal(e.value) else Inert(e.value)
  }

  /** What the scan for the closing quote leaves of an escaped text. */
  function Half(v: string): string {
    if v == "" then "" else (if v[0] == '"' then "\"" else EscapeChar(v[0])) + Half(v[1..])
  }

  lemma ScanTakesPair(b: char, tail: string, delim: char)
    ensures Scan(['\\', b] + tail, delim) == Prepend(if b == delim then [delim] else ['\\', b], Scan(tail, delim))
  {
    var s := ['\\', b] + tail;
    assert s[2..] == tail && s[..2] == ['\\', b];
  }

  lemma ScanTakesByte(c: char, tail: string, delim: char)
    requires c != '\\' && c != delim
    ensures Scan([c] + tail, delim) == Prepend([c], Scan(tail, delim))
  {
    var s := [c] + tail;
    assert s[1..] == tail && s[..1] == [c];
  }

  /** The scan takes one escaped byte at a time. */
  lemma EscapedByteScans(c: char, tail: string)
    ensures Scan(EscapeChar(c) + tail, '"') == Prepend(if c == '"' then "\"" else EscapeChar(c), Scan(tail, '"'))
  {
    if |EscapeChar(c)| == 2 {
      var b := EscapeChar(c)[1];
      assert EscapeChar(c) == ['\\', b];
      ScanTakesPair(b, tail, '"');
    } else {
      ScanTakesByte(c, tail, '"');
    }
  }

  lemma {:induction false} EscapedScans(v: string, t: string)
    ensures Scan(Escape(v) + "\"" + t, '"') == Some(Cut(Half(v), t))
  {
    if v == "" {
      var s := "\"" + t;
      assert Escape(v) + "\"" + t == s && s[1..] == t;
    } else {
      EscapedScans(v[1..], t);
      EscapedByteScans(v[0], Escape(v[1..]) + "\"" + t);
      Associate(EscapeChar(v[0]), Escape(v[1..]), "\"");
      Associate(EscapeChar(v[0]), Escape(v[1..]) + "\"", t);
    }
  }

  lemma {:induction false} HalfUnescapes(v: string)
    ensures Unescape(Half(v)) == v
  {
    if v != "" {
      var head := if v[0] == '"' then "\"" else EscapeChar(v[0]);
      var s := Half(v);
      HalfUnescapes(v[1..]);
      if |head| == 2 {
        assert s[2..] == Half(v[1..]) && s[0] == '\\' && Escaped(s[1]) == Some(v[0]);
      } else {
        assert s[1..] == Half(v[1..]) && s[0] == v[0];
      }
      assert v == [v[0]] + v[1..];
    }
  }

  lemma QuotedCut(v: string)
    ensures var s := "\"" + Escape(v) + "\""; TrimLeft(s) == s && Scan(s[1..], '"') == Some(Cut(Half(v), ""))
  {
    var s := "\"" + Escape(v) + "\"";
    assert s[1..] == Escape(v) + "\"" + "";
    EscapedScans(v, "");
  }

  lemma NothingTrails(content: string)
    ensures StripQuoted(content, "") == content
  {
  }

  /** A printed double-quoted value reads as its interpolation. */
  lemma QuotedReads(v: string, resolved: Env, env: Env)
    ensures ValueOf("\"" + Escape(v) + "\"", resolved, env) == Some(Interpolate(v, resolved, env))
  {
    QuotedCut(v);
    NothingTrails(Half(v));
    HalfUnescapes(v);
  }

  // ---- lines of printed entries ----

  /** Lines joined by newlines, the inverse of Split. */
  function JoinLines(lines: seq<string>): string {
    if lines == [] then "" else if |lines| == 1 then lines[0]
    else JoinLines(lines[..|lines| - 1]) + "\n" + lines[|lines| - 1]
  }

  lemma JoinBack(lines: seq<string>, line: string)
    requires lines != []
    ensures JoinLines(lines + [line]) == JoinLines(lines) + "\n" + line
  {
    assert (lines + [line])[..|lines|] == lines;
  }

  lemma {:induction false} JoinFront(line: string, lines: seq<string>)
    requires lines != []
    ensures JoinLines([line] + lines) == line + "\n" + JoinLines(lines)
  {
    var all := [line] + lines;
    var last := |lines| - 1;
    if last == 0 {
      assert all[..1] == [line];
    } else {
      JoinFront(line, lines[..last]);
      assert all[..|all| - 1] == [line] + lines[..last];
      assert all[|all| - 1] == lines[last];
    }
  }

  lemma {:induction false} IndexAfter(a: string, b: string, c: char)
    requires c !in a
    ensures IndexOf(a + b, c) == match IndexOf(b, c) case None => None case Some(k) => Some(|a| + k)
  {
    if a == "" {
      assert a + b == b;
    } else {
      assert (a + b)[1..] == a[1..] + b;
      IndexAfter(a[1..], b, c);
    }
  }

  lemma NewlineIndex(line: string, rest: string)
    requires '\n' !in line
    ensures IndexOf(line + "\n" + rest, '\n') == Some(|line|)
  {
    Associate(line, "\n", rest);
    IndexAfter(line, "\n" + rest, '\n');
    assert ("\n" + rest)[0] == '\n';
  }

  lemma SplitAtNewline(line: string, rest: string)
    requires '\n' !in line
    ensures Split(line + "\n" + rest) == [line] + Split(rest)
  {
    var s := line + "\n" + rest;
    NewlineIndex(line, rest);
    assert s[..|line|] == line && s[|line| + 1..] == rest;
  }

  lemma OneLine(a: string)
    requires '\n' !in a
    ensures Split(a) == [a]
  {
    IndexIsFirst(a, '\n');
  }

  /** Taking a text apart at its first newline. */
  lemma FirstLine(a: string) returns (line: string, rest: string)
    requires '\n' in a
    ensures '\n' !in line && |rest| < |a| && a == line + "\n" + rest && Split(a) == [line] + Split(rest)
  {
    IndexIsFirst(a, '\n');
    var k := IndexOf(a, '\n').value;
    line, rest := a[..k], a[k + 1..];
  }

  lemma {:induction false} JoinInvertsSplit(raw: string)
    ensures JoinLines(Split(raw)) == raw
    decreases |raw|
  {
    if '\n' in raw {
      var line, rest := FirstLine(raw);
      JoinInvertsSplit(rest);
      JoinFront(line, Split(rest));
    } else {
      OneLine(raw);
    }
  }

  /** A text without newlines in front joins the first line. */
  lemma SplitPrefix(a: string, b: string)
    requires '\n' !in a
    ensures Split(a + b) == [a + Split(b)[0]] + Split(b)[1..]
  {
    if '\n' in b {
      var line, rest := FirstLine(b);
      SplitAtNewline(a + line, rest);
      assert a + b == (a + line) + "\n" + rest;
    } else {
      OneLine(b);
      OneLine(a + b);
    }
  }

  lemma FirstLineFirst(line: string, rest: string, b: string)
    ensures (line + "\n" + rest) + "\n" + b == line + "\n" + (rest + "\n" + b)
  {
  }

  /** Splitting goes on behind a newline. */
  lemma {:induction false} SplitAppends(a: string, b: string)
    ensures Split(a + "\n" + b) == Split(a) + Split(b)
    decreases |a|
  {
    if '\n' in a {
      var line, rest := FirstLine(a);
      SplitAppends(rest, b);
      SplitAtNewline(line, rest + "\n" + b);
      FirstLineFirst(line, rest, b);
    } else {
      OneLine(a);
      SplitAtNewline(a, b);
    }
  }

  lemma LastBehindFirst(line: string, lines: seq<string>, b: string)
    requires lines != []
    ensures var all, n := [line] + lines, |lines|;
            all[..n] + [all[n] + b] == [line] + (lines[..n - 1] + [lines[n - 1] + b])
  {
  }

  /** A text without newlines at the end joins the last line. */
  lemma {:induction false} SplitSuffix(a: string, b: string)
    requires '\n' !in b
    ensures var n := |Split(a)| - 1; Split(a + b) == Split(a)[..n] + [Split(a)[n] + b]
    decreases |a|
  {
    if '\n' in a {
      var line, rest := FirstLine(a);
      SplitSuffix(rest, b);
      SplitAtNewline(line, rest + b);
      Associate(line + "\n", rest, b);
      LastBehindFirst(line, Split(rest), b);
    } else {
      OneLine(a);
      OneLine(a + b);
    }
  }

  // ---- a printed entry is read back ----

  lemma {:induction false} IdentifierTrims(key: string)
    requires forall i :: 0 <= i < |key| ==> IsVarNameChar(key[i])
    ensures TrimSpace(key) == key
  {
  }

  lemma AssignmentLine(key: string, expr: string)
    requires IsIdentifier(key) && expr != "" && expr[|expr| - 1] != '\r'
    ensures var line := key + "=" + expr; TrimLeft(TrimCR(line)) == line && line[0] != '#'
  {
    var line := key + "=" + expr;
    assert line[|line| - 1] == expr[|expr| - 1] && line[0] == key[0];
  }

  lemma AssignmentSplits(key: string, expr: string)
    requires IsIdentifier(key)
    ensures var line := key + "=" + expr;
              IndexOf(line, '=') == Some(|key|) && line[..|key|] == key && line[|key| + 1..] == expr
  {
    assert key + "=" + expr == key + ("=" + expr);
    IndexAfter(key, "=" + expr, '=');
    assert IndexOf("=" + expr, '=') == Some(0);
  }

  /** A line that assigns a delimited value is read as its key and that value. */
  lemma AssignmentReads(key: string, expr: string)
    requires IsIdentifier(key) && expr != "" && expr[|expr| - 1] != '\r'
    ensures Classify(key + "=" + expr) == Assignment(key, expr)
  {
    AssignmentLine(key, expr);
    AssignmentSplits(key, expr);
    IdentifierTrims(key);
  }

  lemma {:induction false} EscapeIsOneLine(v: string)
    ensures '\n' !in Escape(v)
  {
    if v != "" {
      EscapeIsOneLine(v[1..]);
    }
  }

  lemma QuotedEntryReads(e: Entry, rest: seq<string>, lineNo: nat, resolved: Env, env: Env)
    requires IsIdentifier(e.key) && !e.block
    ensures Split(EntryText(e)) == [EntryText(e)]
    ensures ItemAt([EntryText(e)] + rest, lineNo, resolved, env)
              == Pair(EnvPair(e.key, Interpolate(e.value, resolved, env)), 0)
  {
    EscapeIsOneLine(e.value);
    OneLine(EntryText(e));
    AssignmentReads(e.key, Delimited(e));
    QuotedReads(e.value, resolved, env);
    ItemIsPair([EntryText(e)] + rest, e.key, Delimited(e), Some(Interpolate(e.value, resolved, env)), lineNo, resolved,
        env);
  }

  /** A literal text closes where it is followed by a backtick, and not before. */
  lemma {:induction false} LiteralScans(v: string)
    requires '`' !in v && Paired(v)
    ensures Scan(v + "`", '`') == Some(Cut(v, ""))
    decreases |v|
  {
    var s := v + "`";
    if v != "" {
      if v[0] == '\\' {
        LiteralScans(v[2..]);
        assert s[2..] == v[2..] + "`" && s[..2] == v[..2] && v[..2] + v[2..] == v;
      } else {
        LiteralScans(v[1..]);
        assert s[1..] == v[1..] + "`" && s[..1] == v[..1] && v[..1] + v[1..] == v;
      }
    } else {
      assert s == "`" && s[1..] == "";
    }
  }

  lemma {:induction false} NoBacktickNoClose(s: string)
    requires '`' !in s
    ensures Scan(s, '`').None?
    decreases |s|
  {
    if s != "" {
      if s[0] == '\\' && |s| > 1 {
        NoBacktickNoClose(s[2..]);
      } else {
        NoBacktickNoClose(s[1..]);
      }
    }
  }

  lemma {:induction false} NoCRLFSplits(line: string, rest: string)
    requires NoCRLF(line + "\n" + rest)
    ensures NoCRLF(rest) && TrimCR(line) == line
  {
    var v := line + "\n" + rest;
    if line == "" {
      assert v[1..] == rest;
    } else {
      assert v[1..] == line[1..] + "\n" + rest && v[0] == line[0];
      NoCRLFSplits(line[1..], rest);
      assert |line| == 1 ==> v[1] == '\n';
    }
  }

  lemma NoBacktickSplits(line: string, rest: string)
    requires '`' !in line + "\n" + rest
    ensures '`' !in line && '`' !in rest
  {
    var v := line + "\n" + rest;
    assert forall c :: c in line || c in rest ==> c in v;
  }

  /** The lines of a text hold its bytes only, and none but the last ends in a carriage return. */
  lemma {:induction false} LinesOfLiteral(v: string)
    requires '`' !in v && NoCRLF(v)
    ensures forall line :: line in Split(v) ==> '`' !in line
    ensures forall j :: 0 <= j < |Split(v)| - 1 ==> TrimCR(Split(v)[j]) == Split(v)[j]
    decreases |v|
  {
    if '\n' in v {
      var line, rest := FirstLine(v);
      NoCRLFSplits(line, rest);
      NoBacktickSplits(line, rest);
      LinesOfLiteral(rest);
    } else {
      OneLine(v);
    }
  }

  lemma TickFirst(joined: string, line: string)
    ensures ("`" + joined) + "\n" + line == "`" + (joined + "\n" + line)
  {
  }

  lemma {:induction false} JoinedIsJoin(expr: string, lines: seq<string>, w: seq<string>, k: nat)
    requires k < |w| <= |lines| && expr == "`" + w[0] && forall j :: 1 <= j < |w| ==> TrimCR(lines[j]) == w[j]
    ensures Joined(expr, lines, 0, k) == "`" + JoinLines(w[..k + 1])
  {
    if k == 0 {
      assert w[..1] == [w[0]];
    } else {
      JoinedIsJoin(expr, lines, w, k - 1);
      assert w[..k + 1] == w[..k] + [w[k]];
      JoinBack(w[..k], w[k]);
      TickFirst(JoinLines(w[..k]), w[k]);
    }
  }

  lemma {:induction false} JoinHasNoBacktick(lines: seq<string>)
    requires forall line :: line in lines ==> '`' !in line
    ensures '`' !in JoinLines(lines)
  {
    if |lines| > 1 {
      JoinHasNoBacktick(lines[..|lines| - 1]);
    }
  }

  /** The lines begin with those of a literal text and its closing backtick, the first apart. */
  ghost predicate HoldLiteral(lines: seq<string>, v: string, w: seq<string>) {
    && Literal(v) && w == Split(v + "`") && |w| <= |lines|
    && forall j :: 1 <= j < |w| ==> TrimCR(lines[j]) == w[j]
  }

  lemma WithoutTick(s: string)
    ensures ("`" + s)[1..] == s
  {
  }

  lemma LiteralCloses(v: string, lines: seq<string>, w: seq<string>)
    requires HoldLiteral(lines, v, w)
    ensures w != [] && Attempt("`" + w[0], lines, 0, |w| - 1) == Some(Cut(v, ""))
  {
    JoinedIsJoin("`" + w[0], lines, w, |w| - 1);
    assert w[..|w|] == w;
    JoinInvertsSplit(v + "`");
    WithoutTick(v + "`");
    LiteralScans(v);
  }

  lemma ShortOfLiteral(v: string, lines: seq<string>, w: seq<string>, k: nat)
    requires HoldLiteral(lines, v, w) && k < |w| - 1
    ensures Attempt("`" + w[0], lines, 0, k).None?
  {
    JoinedIsJoin("`" + w[0], lines, w, k);
    SplitSuffix(v, "`");
    LinesOfLiteral(v);
    assert w[..k + 1] == Split(v)[..k + 1];
    JoinHasNoBacktick(w[..k + 1]);
    WithoutTick(JoinLines(w[..k + 1]));
    NoBacktickNoClose(JoinLines(w[..k + 1]));
  }

  lemma FirstCloseIs(attempt: nat -> Option<Cut>, n: nat, limit: nat, cut: Cut)
    requires n < limit && attempt(n) == Some(cut) && forall k: nat :: k < n ==> attempt(k).None?
    ensures FirstClose(attempt, 0, limit) == Some(Block(cut.content, n))
  {
    FirstCloseIsFirst(attempt, 0, limit);
  }

  /** The lines of a literal text with its closing backtick make up one block. */
  lemma LiteralBlock(v: string, lines: seq<string>, w: seq<string>)
    requires HoldLiteral(lines, v, w)
    ensures w != [] && BlockAt("`" + w[0], lines, 0) == Some(Block(v, |w| - 1))
  {
    LiteralCloses(v, lines, w);
    var attempt := Attempts("`" + w[0], lines, 0);
    forall k: nat | k < |w| - 1 ensures attempt(k).None? {
      ShortOfLiteral(v, lines, w, k);
    }
    FirstCloseIs(attempt, |w| - 1, |lines|, Cut(v, ""));
  }

  lemma ItemIsPair(lines: seq<string>, key: string, expr: string, value: Option<string>, lineNo: nat, resolved: Env,
                   env: Env)
    requires lines != [] && Classify(lines[0]) == Assignment(key, expr) && ValueOf(expr, resolved, env) == value
    ensures ItemAt(lines, lineNo, resolved, env) == PairAt(key, expr, value, lines, lineNo)
  {
  }

  lemma HoldsBehindHead(head: string, v: string, w: seq<string>, rest: seq<string>)
    requires Literal(v) && w == Split(v + "`") && forall j :: 0 <= j < |w| ==> TrimCR(w[j]) == w[j]
    ensures HoldLiteral([head] + w[1..] + rest, v, w)
  {
    var lines := [head] + w[1..] + rest;
    assert forall j :: 1 <= j < |w| ==> lines[j] == w[j];
  }

  lemma BlockEntryHolds(e: Entry, rest: seq<string>, w: seq<string>)
    requires IsIdentifier(e.key) && e.block && Literal(e.value) && w == Split(e.value + "`")
    ensures var lines := Split(EntryText(e)) + rest;
            && |Split(EntryText(e))| == |w| && HoldLiteral(lines, e.value, w)
            && lines[0] == e.key + "=" + ("`" + w[0])
  {
    BlockEntryLines(e);
    BlockLinesTrim(e.value);
    HoldsBehindHead(e.key + "=" + ("`" + w[0]), e.value, w, rest);
  }

  lemma BlockEntryReads(e: Entry, rest: seq<string>, lineNo: nat, resolved: Env, env: Env)
    requires IsIdentifier(e.key) && e.block && Literal(e.value)
    ensures ItemAt(Split(EntryText(e)) + rest, lineNo, resolved, env)
              == Pair(EnvPair(e.key, e.value), |Split(EntryText(e))| - 1)
  {
    var w := Split(e.value + "`");
    var lines := Split(EntryText(e)) + rest;
    BlockEntryHolds(e, rest, w);
    BlockLinesTrim(e.value);
    AssignmentReads(e.key, "`" + w[0]);
    BlockFirstLine(e.value, resolved, env);
    ItemIsPair(lines, e.key, "`" + w[0], if |w| == 1 then Some(e.value) else None, lineNo, resolved, env);
    BlockPairReads(e.key, e.value, lines, w, lineNo);
  }

  lemma BlockPairReads(key: string, v: string, lines: seq<string>, w: seq<string>, lineNo: nat)
    requires HoldLiteral(lines, v, w)
    ensures w != []
    ensures PairAt(key, "`" + w[0], if |w| == 1 then Some(v) else None, lines, lineNo) == Pair(EnvPair(key, v), |w| - 1)
  {
    assert TrimLeft("`" + w[0]) == "`" + w[0];
    if |w| > 1 {
      LiteralBlock(v, lines, w);
    }
  }

  /** The opening line alone is a value only if it is the only line. */
  lemma BlockFirstLine(v: string, resolved: Env, env: Env)
    requires Literal(v)
    ensures var w := Split(v + "`"); ValueOf("`" + w[0], resolved, env) == if |w| == 1 then Some(v) else None
  {
    var w := Split(v + "`");
    var expr := "`" + w[0];
    assert TrimLeft(expr) == expr && expr[1..] == w[0];
    if |w| == 1 {
      JoinInvertsSplit(v + "`");
      LiteralScans(v);
    } else {
      SplitSuffix(v, "`");
      LinesOfLiteral(v);
      assert w[0] == Split(v)[0];
      NoBacktickNoClose(w[0]);
    }
  }

  lemma HeadMoves(key: string, line: string)
    ensures (key + "=`") + line == key + "=" + ("`" + line)
  {
  }

  lemma BlockEntryLines(e: Entry)
    requires IsIdentifier(e.key) && e.block
    ensures var w := Split(e.value + "`");
            Split(EntryText(e)) == [e.key + "=" + ("`" + w[0])] + w[1..]
  {
    HeadMoves(e.key, e.value + "`");
    assert "`" + (e.value + "`") == "`" + e.value + "`";
    SplitPrefix(e.key + "=`", e.value + "`");
    HeadMoves(e.key, Split(e.value + "`")[0]);
  }

  lemma TickEndsLine(s: string)
    ensures TrimCR(s + "`") == s + "`"
  {
    assert (s + "`")[|s|] == '`';
  }

  lemma TrimmedEndsClean(s: string)
    requires TrimCR(s) == s
    ensures ("`" + s)[|s|] != '\r'
  {
    if s != "" {
      assert ("`" + s)[|s|] == s[|s| - 1];
    }
  }

  lemma BlockLinesTrim(v: string)
    requires Literal(v)
    ensures var w := Split(v + "`");
            && (forall j :: 0 <= j < |w| ==> TrimCR(w[j]) == w[j])
            && ("`" + w[0])[|w[0]|] != '\r'
  {
    SplitSuffix(v, "`");
    LinesOfLiteral(v);
    var lines, w := Split(v), Split(v + "`");
    forall j | 0 <= j < |w| ensures TrimCR(w[j]) == w[j] {
      if j == |lines| - 1 {
        TickEndsLine(lines[j]);
      }
    }
    TrimmedEndsClean(w[0]);
  }

  // ---- round trip ----

  function Pairs(entries: seq<Entry>): seq<EnvPair> {
    if entries == [] then [] else [EnvPair(entries[0].key, entries[0].value)] + Pairs(entries[1..])
  }

  /** Lines that stand for one pair. */
  datatype Chunk = Chunk(lines: seq<string>, pair: EnvPair)

  function ChunkOf(e: Entry): Chunk {
    Chunk(Split(EntryText(e)), EnvPair(e.key, e.value))
  }

  function Chunks(entries: seq<Entry>): (r: seq<Chunk>)
    ensures |r| == |entries| && forall i :: 0 <= i < |r| ==> r[i] == ChunkOf(entries[i])
  {
    if entries == [] then [] else [ChunkOf(entries[0])] + Chunks(entries[1..])
  }

  function LinesOf(chunks: seq<Chunk>): seq<string> {
    if chunks == [] then [""] else chunks[0].lines + LinesOf(chunks[1..])
  }

  function PairsOf(chunks: seq<Chunk>): seq<EnvPair> {
    if chunks == [] then [] else [chunks[0].pair] + PairsOf(chunks[1..])
  }

  lemma {:induction false} PrintedLines(entries: seq<Entry>)
    ensures Split(Print(entries)) == LinesOf(Chunks(entries)) && Pairs(entries) == PairsOf(Chunks(entries))
  {
    if entries != [] {
      PrintedLines(entries[1..]);
      SplitAppends(EntryText(entries[0]), Print(entries[1..]));
      assert Chunks(entries)[1..] == Chunks(entries[1..]);
    }
  }

  lemma EntryReads(e: Entry, rest: seq<string>, lineNo: nat, resolved: Env, env: Env)
    requires Printable(e)
    ensures ItemAt(Split(EntryText(e)) + rest, lineNo, resolved, env)
              == Pair(EnvPair(e.key, e.value), |Split(EntryText(e))| - 1)
  {
    if e.block {
      BlockEntryReads(e, rest, lineNo, resolved, env);
    } else {
      QuotedEntryReads(e, rest, lineNo, resolved, env);
      InertStays(e.value, resolved, env);
    }
  }

  lemma LastLineReads(lineNo: nat, resolved: Env, env: Env)
    ensures ItemAt([""], lineNo, resolved, env) == Skip
  {
  }

  /** The reader takes an entry of n lines off the front. */
  lemma ReadAllTakes(read: Reader, front: seq<string>, rest: seq<string>, lineNo: nat, resolved: Env, env: Env,
                     pair: EnvPair)
    requires front != [] && read(front + rest, lineNo, resolved, env) == Pair(pair, |front| - 1)
    ensures ReadAll(read, front + rest, lineNo, resolved, env)
         == Prefixed([pair], ReadAll(read, rest, lineNo + |front|, resolved[pair.key := pair.value], env))
  {
    assert (front + rest)[|front|..] == rest;
  }

  lemma ReadAllSkips(read: Reader, line: string, lineNo: nat, resolved: Env, env: Env)
    requires read([line], lineNo, resolved, env) == Skip
    ensures ReadAll(read, [line], lineNo, resolved, env) == Ok([])
  {
    assert [line][1..] == [];
  }

  ghost predicate SkipsLast(read: Reader) {
    forall lineNo, resolved, env :: read([""], lineNo, resolved, env) == Skip
  }

  /** Wherever its lines stand, a reader takes them for the pair and nothing else. */
  ghost predicate Delivers(read: Reader, k: Chunk) {
    k.lines != [] && forall rest, lineNo, resolved, env ::
      read(k.lines + rest, lineNo, resolved, env) == Pair(k.pair, |k.lines| - 1)
  }

  lemma {:induction false} ChunksRead(read: Reader, chunks: seq<Chunk>, lineNo: nat, resolved: Env, env: Env)
    requires forall k :: k in chunks ==> Delivers(read, k)
    requires SkipsLast(read)
    ensures ReadAll(read, LinesOf(chunks), lineNo, resolved, env) == Ok(PairsOf(chunks))
  {
    if chunks == [] {
      ReadAllSkips(read, "", lineNo, resolved, env);
    } else {
      var k, rest := chunks[0], LinesOf(chunks[1..]);
      assert Delivers(read, k);
      ReadAllTakes(read, k.lines, rest, lineNo, resolved, env, k.pair);
      ChunksRead(read, chunks[1..], lineNo + |k.lines|, resolved[k.pair.key := k.pair.value], env);
    }
  }

  lemma ItemAtDelivers(e: Entry)
    requires Printable(e)
    ensures Delivers(ItemAt, ChunkOf(e))
  {
    forall rest, lineNo, resolved, env
      ensures ItemAt(ChunkOf(e).lines + rest, lineNo, resolved, env) == Pair(ChunkOf(e).pair, |ChunkOf(e).lines| - 1) {
      EntryReads(e, rest, lineNo, resolved, env);
    }
  }

  lemma EntriesDelivered(entries: seq<Entry>)
    requires forall e :: e in entries ==> Printable(e)
    ensures forall k :: k in Chunks(entries) ==> Delivers(ItemAt, k)
  {
    forall k | k in Chunks(entries) ensures Delivers(ItemAt, k) {
      var i :| 0 <= i < |entries| && k == ChunkOf(entries[i]);
      ItemAtDelivers(entries[i]);
    }
  }

  lemma LastLineDelivered()
    ensures SkipsLast(ItemAt)
  {
    forall lineNo, resolved, env ensures ItemAt([""], lineNo, resolved, env) == Skip {
      LastLineReads(lineNo, resolved, env);
    }
  }

  /** Round trip: whatever list of identifiers and values is printed, each value escaped in double
      quotes if it has no active dollar sign, or literally between backticks over as many lines
      as it takes, reads back as the same list in the same order, in every environment. */
  lemma RoundTrip(entries: seq<Entry>, env: Env)
    requires forall e :: e in entries ==> Printable(e)
    ensures Parse(Print(entries), env) == Ok(Pairs(entries))
  {
    PrintedLines(entries);
    EntriesDelivered(entries);
    LastLineDelivered();
    ChunksRead(ItemAt, Chunks(entries), 1, map[], env);
  }

  /** A text without dollar signs is inert. */
  lemma NoDollarIsInert(v: string)
    requires '$' !in v
    ensures Inert(v)
  {
  }

  lemma OneEntryReads(read: Reader, line: string, pair: EnvPair, env: Env)
    requires read([line] + [""], 1, map[], env) == Pair(pair, 0)
    requires read([""], 2, map[pair.key := pair.value], env) == Skip
    ensures ReadAll(read, [line] + [""], 1, map[], env) == Ok([pair])
  {
    ReadAllTakes(read, [line], [""], 1, map[], env, pair);
    ReadAllSkips(read, "", 2, map[pair.key := pair.value], env);
  }

  /** A value printed in double quotes and read where nothing is defined is interpolated once. */
  lemma QuotedAlone(key: string, value: string)
    requires IsIdentifier(key)
    ensures Parse(Print([Entry(key, value, false)]), map[]) == Ok([EnvPair(key, Interpolate(value, map[], map[]))])
  {
    var e := Entry(key, value, false);
    var pair := EnvPair(key, Interpolate(value, map[], map[]));
    PrintedAlone(e);
    QuotedEntryReads(e, [""], 1, map[], map[]);
    LastLineReads(2, map[key := pair.value], map[]);
    OneEntryReads(ItemAt, EntryText(e), pair, map[]);
  }

  lemma PrintedAlone(e: Entry)
    ensures Split(Print([e])) == Split(EntryText(e)) + [""]
  {
    SplitAppends(EntryText(e), "");
    assert Print([e]) == EntryText(e) + "\n" + "" by {
      assert [e][1..] == [];
    }
  }

  /** The condition on dollar signs is exact: printed in double quotes and read where nothing is
      defined, a value comes back if and only if it has no active dollar sign. */
  lemma QuotedRoundTripIff(key: string, value: string)
    requires IsIdentifier(key)
    ensures Parse(Print([Entry(key, value, false)]), map[]) == Ok([EnvPair(key, value)]) <==> Inert(value)
  {
    QuotedAlone(key, value);
    if Inert(value) {
      InertStays(value, map[], map[]);
    } else {
      ActiveShrinks(value);
    }
  }

  // ---- when a block reads back ----

  /** What a scan leaves out: the closing delimiter, and each backslash before one. If it leaves
      out nothing else, it has read a text without delimiters as it is. */
  lemma {:induction false} ScanKeeps(s: string, delim: char)
    requires delim != '\\' && Scan(s, delim).Some?
    ensures var cut := Scan(s, delim).value;
            && |cut.content| + 1 + |cut.rest| <= |s| && s[|s| - |cut.rest| - 1] == delim
            && (|cut.content| + 1 + |cut.rest| == |s| ==>
                cut.content + [delim] + cut.rest == s && delim !in cut.content && Paired(cut.content))
    decreases |s|
  {
    if s[0] == '\\' && |s| > 1 {
      ScanKeeps(s[2..], delim);
      ScanKeepsPair(s, delim);
    } else if s[0] != delim {
      ScanKeeps(s[1..], delim);
      ScanKeepsByte(s, delim);
    } else {
      assert "" + [delim] + s[1..] == s;
    }
  }

  lemma ScanKeepsPair(s: string, delim: char)
    requires |s| > 1 && s[0] == '\\' && delim != '\\' && Scan(s, delim).Some?
    requires var cut := Scan(s[2..], delim).value;
             |cut.content| + 1 + |cut.rest| == |s[2..]| ==>
                 cut.content + [delim] + cut.rest == s[2..] && delim !in cut.content && Paired(cut.content)
    ensures var cut := Scan(s, delim).value;
            |cut.content| + 1 + |cut.rest| == |s| && |Scan(s[2..], delim).value.content| + 1 + |cut.rest| <= |s[2..]|
            ==> cut.content + [delim] + cut.rest == s && delim !in cut.content && Paired(cut.content)
  {
    var inner := Scan(s[2..], delim).value;
    if s[1] != delim {
      var content := s[..2] + inner.content;
      assert content[2..] == inner.content;
      Associate(s[..2], inner.content, [delim]);
      Associate(s[..2], inner.content + [delim], inner.rest);
      assert s == s[..2] + s[2..];
    }
  }

  lemma ScanKeepsByte(s: string, delim: char)
    requires s != "" && s[0] != delim && s[0] != '\\' && Scan(s, delim).Some?
    requires var cut := Scan(s[1..], delim).value;
             |cut.content| + 1 + |cut.rest| == |s[1..]| ==>
                 cut.content + [delim] + cut.rest == s[1..] && delim !in cut.content && Paired(cut.content)
    ensures var cut := Scan(s, delim).value;
            |cut.content| + 1 + |cut.rest| == |s| ==>
                cut.content + [delim] + cut.rest == s && delim !in cut.content && Paired(cut.content)
  {
    var inner := Scan(s[1..], delim).value;
    var content := s[..1] + inner.content;
    assert content[1..] == inner.content;
    Associate(s[..1], inner.content, [delim]);
    Associate(s[..1], inner.content + [delim], inner.rest);
    assert s == s[..1] + s[1..];
  }

  /** The lines as the reader sees them. */
  function Trimmed(lines: seq<string>): (r: seq<string>)
    ensures |r| == |lines| && forall j :: 0 <= j < |r| ==> r[j] == TrimCR(lines[j])
  {
    if lines == [] then [] else Trimmed(lines[..|lines| - 1]) + [TrimCR(lines[|lines| - 1])]
  }

  /** Trimming shortens the text unless there is nothing to trim. */
  lemma {:induction false} TrimmingShortens(lines: seq<string>)
    ensures |JoinLines(Trimmed(lines))| <= |JoinLines(lines)|
    ensures |JoinLines(Trimmed(lines))| == |JoinLines(lines)| ==> forall line :: line in lines ==> TrimCR(line) == line
  {
    if |lines| > 1 {
      var front, last := lines[..|lines| - 1], lines[|lines| - 1];
      TrimmingShortens(front);
      JoinBack(Trimmed(front), TrimCR(last));
      JoinBack(front, last);
      assert lines == front + [last];
    }
  }

  lemma {:induction false} CleanLinesHaveNoCRLF(u: string)
    requires forall line :: line in Split(u) ==> TrimCR(line) == line
    ensures NoCRLF(u)
    decreases |u|
  {
    if '\n' in u {
      var line, rest := FirstLine(u);
      forall l | l in Split(rest) ensures TrimCR(l) == l {
        assert l in Split(u);
      }
      CleanLinesHaveNoCRLF(rest);
      assert line in Split(u);
      NoCRLFJoins(line, rest);
    } else {
      NoNewlineNoCRLF(u);
    }
  }

  lemma {:induction false} NoCRLFJoins(line: string, rest: string)
    requires '\n' !in line && TrimCR(line) == line && NoCRLF(rest)
    ensures NoCRLF(line + "\n" + rest)
  {
    var u := line + "\n" + rest;
    if line == "" {
      assert u[1..] == rest && u[0] == '\n';
    } else {
      assert u[1..] == line[1..] + "\n" + rest && u[0] == line[0];
      assert |line| > 1 ==> u[1] == line[1];
      NoCRLFJoins(line[1..], rest);
    }
  }

  lemma {:induction false} NoNewlineNoCRLF(u: string)
    requires '\n' !in u
    ensures NoCRLF(u)
  {
    if |u| >= 2 {
      NoNewlineNoCRLF(u[1..]);
    }
  }

  lemma {:induction false} NoCRLFInFront(v: string, c: char)
    requires NoCRLF(v + [c])
    ensures NoCRLF(v)
  {
    if |v| >= 2 {
      assert (v + [c])[1..] == v[1..] + [c];
      NoCRLFInFront(v[1..], c);
    }
  }

  /** Scanning the trimmed lines of a text and its closing backtick gives the text only if it is
      literal. */
  lemma ScannedIsLiteral(v: string, w: seq<string>)
    requires w == Split(v + "`")
    requires var cut := Scan(JoinLines(Trimmed(w)) + "\n", '`'); cut.Some? && cut.value.content == v
    ensures Literal(v)
  {
    var text := JoinLines(Trimmed(w));
    var s := text + "\n";
    var cut := Scan(s, '`').value;
    ScanKeeps(s, '`');
    TrimmingShortens(w);
    JoinInvertsSplit(v + "`");
    assert |cut.rest| > 0 by {
      assert s[|s| - 1] == '\n';
    }
    CleanLinesHaveNoCRLF(v + "`");
    NoCRLFInFront(v, '`');
  }

  lemma TickTrims(key: string, x: string)
    ensures TrimCR(key + "=" + ("`" + x)) == key + "=" + ("`" + TrimCR(x))
  {
    var line := key + "=" + ("`" + x);
    if x != "" {
      assert line[|line| - 1] == x[|x| - 1];
    } else {
      assert line[|line| - 1] == '`';
    }
  }

  /** The opening line is read without its carriage return. */
  lemma TickLineReads(key: string, x: string)
    requires IsIdentifier(key)
    ensures Classify(key + "=" + ("`" + x)) == Assignment(key, "`" + TrimCR(x))
  {
    TickTrims(key, x);
    AssignmentSplits(key, "`" + TrimCR(x));
    IdentifierTrims(key);
    var line := key + "=" + ("`" + TrimCR(x));
    assert line[0] == key[0];
  }

  /** Whatever a block entry is read as, scanning all its lines gives the same value. */
  lemma PairIsScanned(key: string, expr: string, lines: seq<string>, value: string, n: nat, resolved: Env, env: Env)
    requires lines != [] && expr != "" && expr[0] == '`'
    requires PairAt(key, expr, ValueOf(expr, resolved, env), lines, 1) == Pair(EnvPair(key, value), n)
    ensures var pass := Attempt(expr, lines, 0, |lines| - 1); pass.Some? && pass.value.content == value
  {
    assert TrimLeft(expr) == expr;
    if ValueOf(expr, resolved, env).Some? {
      assert Attempt(expr, lines, 0, 0).Some? && Attempt(expr, lines, 0, 0).value.content == value;
      ClosedStays(expr, lines, 0, 0, |lines| - 1);
    } else {
      BlockIsOnePass(expr, lines, 0, |lines| - 1);
      FirstCloseIsFirst(Attempts(expr, lines, 0), 0, |lines|);
    }
  }

  lemma TrimmedBehindHead(lines: seq<string>, head: string, w: seq<string>, all: seq<string>)
    requires w != [] && lines == [head] + w[1..] + [""] && all == Trimmed(w) + [""]
    ensures |lines| == |all| == |w| + 1 && all[0] == TrimCR(w[0])
    ensures forall j :: 1 <= j < |all| ==> TrimCR(lines[j]) == all[j]
  {
    forall j | 1 <= j < |all| ensures TrimCR(lines[j]) == all[j] {
      if j < |w| {
        assert lines[j] == w[j];
      } else {
        assert lines[j] == "";
      }
    }
  }

  lemma EndsInNewline(text: string)
    ensures text + "\n" + "" == text + "\n"
  {
  }

  lemma JoinedIsTrimmed(lines: seq<string>, head: string, w: seq<string>)
    requires w != [] && lines == [head] + w[1..] + [""]
    ensures |lines| == |w| + 1 && Joined("`" + TrimCR(w[0]), lines, 0, |w|) == "`" + (JoinLines(Trimmed(w)) + "\n")
  {
    var all := Trimmed(w) + [""];
    TrimmedBehindHead(lines, head, w, all);
    JoinedIsJoin("`" + TrimCR(w[0]), lines, all, |w|);
    assert all[..|w| + 1] == all;
    JoinBack(Trimmed(w), "");
    EndsInNewline(JoinLines(Trimmed(w)));
  }

  lemma BlockItem(key: string, lines: seq<string>, x: string, env: Env)
    requires IsIdentifier(key) && lines != [] && lines[0] == key + "=" + ("`" + x)
    ensures var expr := "`" + TrimCR(x);
            ItemAt(lines, 1, map[], env) == PairAt(key, expr, ValueOf(expr, map[], env), lines, 1) && expr[0] == '`'
  {
    TickLineReads(key, x);
    var expr := "`" + TrimCR(x);
    ItemIsPair(lines, key, expr, ValueOf(expr, map[], env), 1, map[], env);
  }

  lemma FirstPairIs(read: Reader, lines: seq<string>, env: Env, pair: EnvPair)
    requires lines != [] && ReadAll(read, lines, 1, map[], env) == Ok([pair]) && !read(lines, 1, map[], env).Skip?
    ensures read(lines, 1, map[], env).Pair? && read(lines, 1, map[], env).pair == pair
  {
    var item := read(lines, 1, map[], env);
    if item.Pair? {
      var n := item.linesConsumed;
      var rest := ReadAll(read, lines[n + 1..], 1 + n + 1, map[item.pair.key := item.pair.value], env);
      assert ReadAll(read, lines, 1, map[], env) == Prefixed([item.pair], rest);
      assert ([item.pair] + rest.pairs)[0] == item.pair;
    }
  }

  lemma PairIsNoSkip(key: string, expr: string, value: Option<string>, lines: seq<string>)
    requires lines != []
    ensures !PairAt(key, expr, value, lines, 1).Skip?
  {
  }

  lemma ReadIsScanned(read: Reader, key: string, expr: string, v: string, lines: seq<string>, env: Env)
    requires lines != [] && expr != "" && expr[0] == '`'
    requires read(lines, 1, map[], env) == PairAt(key, expr, ValueOf(expr, map[], env), lines, 1)
    requires ReadAll(read, lines, 1, map[], env) == Ok([EnvPair(key, v)])
    ensures var pass := Attempt(expr, lines, 0, |lines| - 1); pass.Some? && pass.value.content == v
  {
    PairIsNoSkip(key, expr, ValueOf(expr, map[], env), lines);
    FirstPairIs(read, lines, env, EnvPair(key, v));
    PairIsScanned(key, expr, lines, v, read(lines, 1, map[], env).linesConsumed, map[], env);
  }

  lemma AllLinesScanned(key: string, v: string, lines: seq<string>, w: seq<string>)
    requires w == Split(v + "`") && lines == [key + "=" + ("`" + w[0])] + w[1..] + [""]
    requires var pass := Attempt("`" + TrimCR(w[0]), lines, 0, |lines| - 1); pass.Some? && pass.value.content == v
    ensures Literal(v)
  {
    JoinedIsTrimmed(lines, key + "=" + ("`" + w[0]), w);
    WithoutTick(JoinLines(Trimmed(w)) + "\n");
    ScannedIsLiteral(v, w);
  }

  lemma BlockReadOnlyIfLiteral(read: Reader, key: string, v: string, lines: seq<string>, w: seq<string>, env: Env)
    requires IsIdentifier(key) && w == Split(v + "`") && lines == [key + "=" + ("`" + w[0])] + w[1..] + [""]
    requires read(lines, 1, map[], env) == ItemAt(lines, 1, map[], env)
    requires ReadAll(read, lines, 1, map[], env) == Ok([EnvPair(key, v)])
    ensures Literal(v)
  {
    BlockItem(key, lines, w[0], env);
    ReadIsScanned(read, key, "`" + TrimCR(w[0]), v, lines, env);
    AllLinesScanned(key, v, lines, w);
  }

  lemma LiteralComesBack(key: string, value: string, env: Env)
    requires IsIdentifier(key) && Literal(value)
    ensures Parse(Print([Entry(key, value, true)]), env) == Ok([EnvPair(key, value)])
  {
    var e := Entry(key, value, true);
    RoundTrip([e], env);
    assert Pairs([e]) == [EnvPair(key, value)] by {
      assert [e][1..] == [];
    }
  }

  lemma ComesBackOnlyIfLiteral(read: Reader, key: string, value: string, lines: seq<string>, env: Env)
    requires IsIdentifier(key) && lines == Split(Print([Entry(key, value, true)]))
    requires read(lines, 1, map[], env) == ItemAt(lines, 1, map[], env)
    requires ReadAll(read, lines, 1, map[], env) == Ok([EnvPair(key, value)])
    ensures Literal(value)
  {
    var e := Entry(key, value, true);
    PrintedAlone(e);
    BlockEntryLines(e);
    BlockReadOnlyIfLiteral(read, key, value, lines, Split(value + "`"), env);
  }

  /** A value printed between backticks comes back if and only if it is literal, whatever the
      environment. */
  lemma BlockRoundTripIff(key: string, value: string, env: Env)
    requires IsIdentifier(key)
    ensures Parse(Print([Entry(key, value, true)]), env) == Ok([EnvPair(key, value)]) <==> Literal(value)
  {
    if Literal(value) {
      LiteralComesBack(key, value, env);
    } else if Parse(Print([Entry(key, value, true)]), env) == Ok([EnvPair(key, value)]) {
      ComesBackOnlyIfLiteral(ItemAt, key, value, Split(Print([Entry(key, value, true)])), env);
    }
  }

  // ---- every line is read once ----

  /** For each line the number of the pair it belongs to, if any. */
  ghost function Owners(read: Reader, lines: seq<string>, lineNo: nat, resolved: Env, env: Env,
                        next: nat): seq<Option<nat>>
    decreases |lines|
  {
    if lines == [] then []
    else
      match read(lines, lineNo, resolved, env)
      case Skip => [None] + Owners(read, lines[1..], lineNo + 1, resolved, env, next)
      case Wrong(_) => []
      case Pair(pair, n) =>
        seq(n + 1, _ => Some(next))
            + Owners(read, lines[n + 1..], lineNo + n + 1, resolved[pair.key := pair.value], env, next + 1)
  }

  /** In a file that parses, every physical line is accounted for once, as no entry or as part of
      one pair; */
  lemma {:induction false} EveryLineHasOneOwner(read: Reader, lines: seq<string>, lineNo: nat, resolved: Env, env: Env,
                                                next: nat)
    requires ReadAll(read, lines, lineNo, resolved, env).Ok?
    ensures |Owners(read, lines, lineNo, resolved, env, next)| == |lines|
    decreases |lines|
  {
    if lines != [] {
      match read(lines, lineNo, resolved, env)
      case Skip => EveryLineHasOneOwner(read, lines[1..], lineNo + 1, resolved, env, next);
      case Wrong(_) =>
      case Pair(pair, n) =>
        EveryLineHasOneOwner(read, lines[n + 1..], lineNo + n + 1, resolved[pair.key := pair.value], env, next + 1);
    }
  }

  /** and the owners are the pairs, each with lines of its own. */
  lemma {:induction false} OwnersAreThePairs(read: Reader, lines: seq<string>, lineNo: nat, resolved: Env, env: Env,
                                             next: nat, i: nat)
    requires ReadAll(read, lines, lineNo, resolved, env).Ok?
    ensures Some(i) in Owners(read, lines, lineNo, resolved, env, next) <==>
              next <= i < next + |ReadAll(read, lines, lineNo, resolved, env).pairs|
    decreases |lines|
  {
    if lines != [] {
      match read(lines, lineNo, resolved, env)
      case Skip => OwnersAreThePairs(read, lines[1..], lineNo + 1, resolved, env, next, i);
      case Wrong(_) =>
      case Pair(pair, n) =>
        OwnersAreThePairs(read, lines[n + 1..], lineNo + n + 1, resolved[pair.key := pair.value], env, next + 1, i);
        assert seq(n + 1, _ => Some(next))[0] == Some(next);
    }
  }
}
