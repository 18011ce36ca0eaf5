// internal/dotenv/parse.go: what a file of assignments means, said without its scanner: each line
// assigns in turn, starting from the environment.
module DotenvMeaning {
  import opened Graphs
  import opened Dotenv

  // ---- what an expansion means ----

  /** A part of a value: text without dollar signs, $NAME, or ${NAME} with or without an operator. */
  datatype Segment = Plain(text: string) | Named(name: string) | Braced(name: string, op: BraceOp, arg: string)

  function SegmentText(g: Segment): string {
    match g
    case Plain(text) => text
    case Named(name) => "$" + name
    case Braced(name, op, arg) => "${" + (name + (OpText(op) + arg)) + "}"
  }

  function TemplateText(t: seq<Segment>): string {
    if t == [] then "" else SegmentText(t[0]) + TemplateText(t[1..])
  }

  predicate SegmentOk(g: Segment) {
    match g
    case Plain(text) => '$' !in text
    case Named(name) => IsIdentifier(name)
    case Braced(name, op, arg) => IsIdentifier(name) && '}' !in arg && !Overtaken(op, arg) && (op.NoOp? ==> arg == "")
  }

  /** A name without braces ends where the next byte cannot belong to it. */
  predicate WellFormed(t: seq<Segment>) {
    t == [] || (&& SegmentOk(t[0]) && WellFormed(t[1..])
                && (t[0].Named? && TemplateText(t[1..]) != "" ==> !IsVarNameChar(TemplateText(t[1..])[0])))
  }

  function Get(known: Env, name: string): string {
    if name in known then known[name] else ""
  }

  /** When the operator brings its argument: unset or empty, unset, set and not empty, set. */
  predicate TakesArgument(op: BraceOp, name: string, known: Env) {
    match op
    case NoOp => false
    case OrIfEmpty => name !in known || known[name] == ""
    case OrIfUnset => name !in known
    case AltIfFull => name in known && known[name] != ""
    case AltIfSet => name in known
  }

  function SegmentMeans(g: Segment, known: Env): string {
    match g
    case Plain(text) => text
    case Named(name) => Get(known, name)
    case Braced(name, op, arg) =>
      if TakesArgument(op, name, known) then arg else if op.AltIfFull? || op.AltIfSet? then "" else Get(known, name)
  }

  function Means(t: seq<Segment>, known: Env): string {
    if t == [] then "" else SegmentMeans(t[0], known) + Means(t[1..], known)
  }

  /** The keys of the file so far hide the environment. */
  lemma KnownIs(name: string, resolved: Env, env: Env)
    ensures LookupVar(name, resolved, env) == if name in env + resolved then Some((env + resolved)[name]) else None
  {
  }

  lemma {:induction false} PlainReads(text: string, rest: string, resolved: Env, env: Env)
    requires '$' !in text
    ensures Interpolate(text + rest, resolved, env) == text + Interpolate(rest, resolved, env)
  {
    if text == "" {
      assert text + rest == rest;
    } else {
      var s := text + rest;
      assert s[1..] == text[1..] + rest && [s[0]] == text[..1] && text == text[..1] + text[1..];
      PlainReads(text[1..], rest, resolved, env);
      Associate(text[..1], text[1..], Interpolate(rest, resolved, env));
    }
  }

  lemma {:induction false} NameEnds(name: string, rest: string)
    requires (forall i :: 0 <= i < |name| ==> IsVarNameChar(name[i])) && (rest != "" ==> !IsVarNameChar(rest[0]))
    ensures NameLength(name + rest) == |name|
  {
    if name == "" {
      assert name + rest == rest;
    } else {
      assert (name + rest)[1..] == name[1..] + rest;
      NameEnds(name[1..], rest);
    }
  }

  lemma NamedPiece(name: string, rest: string, resolved: Env, env: Env)
    requires IsIdentifier(name) && (rest != "" ==> !IsVarNameChar(rest[0]))
    ensures var s := "$" + name + rest;
            FirstPiece(s, resolved, env) == Piece(Get(env + resolved, name), 1 + |name|) && s[1 + |name|..] == rest
  {
    var s := "$" + name + rest;
    assert s[0] == '$' && s[1..] == name + rest && s[1] == name[0];
    NameEnds(name, rest);
    KnownIs(name, resolved, env);
    assert s[1..1 + |name|] == name;
  }

  lemma NamedReads(name: string, rest: string, resolved: Env, env: Env)
    requires IsIdentifier(name) && (rest != "" ==> !IsVarNameChar(rest[0]))
    ensures Interpolate("$" + name + rest, resolved, env)
              == Get(env + resolved, name) + Interpolate(rest, resolved, env)
  {
    NamedPiece(name, rest, resolved, env);
  }

  lemma NoOperatorInName(name: string)
    requires IsIdentifier(name)
    ensures SplitBraceOperator(name + (OpText(NoOp) + "")) == Brace(name, NoOp, "")
  {
    assert name + (OpText(NoOp) + "") == name == name + "";
    FindAfterName(name, "", ":-");
    FindAfterName(name, "", ":+");
    FindAfterName(name, "", "-");
    FindAfterName(name, "", "+");
  }

  lemma BraceMeans(name: string, op: BraceOp, arg: string, resolved: Env, env: Env)
    requires SegmentOk(Braced(name, op, arg))
    ensures ResolveBraceExpr(name + (OpText(op) + arg), resolved, env)
              == SegmentMeans(Braced(name, op, arg), env + resolved)
  {
    if op.NoOp? {
      NoOperatorInName(name);
    } else {
      SplitsAsWrittenIff(name, op, arg);
    }
    KnownIs(name, resolved, env);
  }

  lemma BraceCloses(inner: string, rest: string)
    requires '}' !in inner
    ensures IndexOf(inner + ("}" + rest), '}') == Some(|inner|)
  {
    IndexAfter(inner, "}" + rest, '}');
    assert ("}" + rest)[0] == '}';
  }

  lemma BracePiece(inner: string, rest: string, resolved: Env, env: Env)
    requires '}' !in inner
    ensures var s := "${" + inner + "}" + rest;
            && FirstPiece(s, resolved, env) == Piece(ResolveBraceExpr(inner, resolved, env), |inner| + 3)
            && s[|inner| + 3..] == rest
  {
    var s := "${" + inner + "}" + rest;
    BraceCloses(inner, rest);
    assert s[2..] == inner + ("}" + rest);
    assert s[2..|inner| + 2] == inner;
  }

  lemma NoBraceInName(name: string, op: BraceOp, arg: string)
    requires IsIdentifier(name) && '}' !in arg
    ensures '}' !in name + (OpText(op) + arg)
  {
  }

  lemma BracedReads(name: string, op: BraceOp, arg: string, rest: string, resolved: Env, env: Env)
    requires SegmentOk(Braced(name, op, arg))
    ensures Interpolate(SegmentText(Braced(name, op, arg)) + rest, resolved, env)
              == SegmentMeans(Braced(name, op, arg), env + resolved) + Interpolate(rest, resolved, env)
  {
    BraceMeans(name, op, arg, resolved, env);
    NoBraceInName(name, op, arg);
    BracePiece(name + (OpText(op) + arg), rest, resolved, env);
  }

  /** A value is expanded part by part, by what is known when its line is reached: $NAME and ${NAME}
      bring the value or nothing; the argument of an operator comes out if and only if the name is
      unset or empty (:-), unset (-), set and not empty (:+), set (+), and otherwise the value for
      the first two and nothing for the last two. */
  lemma {:induction false} TemplateReads(t: seq<Segment>, resolved: Env, env: Env)
    requires WellFormed(t)
    ensures Interpolate(TemplateText(t), resolved, env) == Means(t, env + resolved)
  {
    if t != [] {
      var rest := TemplateText(t[1..]);
      TemplateReads(t[1..], resolved, env);
      match t[0]
      case Plain(text) => PlainReads(text, rest, resolved, env);
      case Named(name) => NamedReads(name, rest, resolved, env);
      case Braced(name, op, arg) => BracedReads(name, op, arg, rest, resolved, env);
    }
  }

  // ---- what a written value means ----

  predicate Blanks(s: string) {
    forall i :: 0 <= i < |s| ==> s[i] == ' ' || s[i] == '\t'
  }

  predicate AllSpace(s: string) {
    forall i :: 0 <= i < |s| ==> IsSpace(s[i])
  }

  /** No hash right after a space. */
  predicate NoHash(s: string) {
    forall i :: 0 <= i < |s| - 1 ==> !(s[i] == ' ' && s[i + 1] == '#')
  }

  predicate IsComment(s: string) {
    s == "" || (|s| > 1 && s[0] == ' ' && s[1] == '#')
  }

  predicate StartsBare(c: char) {
    c != ' ' && c != '\t' && c != '`' && c != '\'' && c != '"'
  }

  /** Text that ends at the quote behind it: no quote without a backslash, no open backslash. */
  predicate Quotable(raw: string, q: char)
    decreases |raw|
  {
    raw == "" || if raw[0] == '\\' then |raw| > 1 && Quotable(raw[2..], q) else raw[0] != q && Quotable(raw[1..], q)
  }

  /** Quoted text, a backslash before the quote taken away. */
  function Kept(raw: string, q: char): string
    decreases |raw|
  {
    if raw == "" then ""
    else if raw[0] == '\\' && |raw| > 1 then (if raw[1] == q then [q] else raw[..2]) + Kept(raw[2..], q)
    else [raw[0]] + Kept(raw[1..], q)
  }

  /** Double-quoted text, read in one pass: five escapes, and a backslash that is kept before
      anything else. */
  function Spoken(raw: string): string
    decreases |raw|
  {
    if raw == "" then ""
    else if raw[0] == '\\' && |raw| > 1 then
      (match raw[1]
       case 'n' => "\n"
       case 'r' => "\r"
       case 't' => "\t"
       case '\\' => "\\"
       case '"' => "\""
       case c => ['\\', c]) + Spoken(raw[2..])
    else [raw[0]] + Spoken(raw[1..])
  }

  /** A value as it stands behind the equals sign: bare, in double quotes, or in single quotes, with
      what follows the closing quote and a comment. */
  datatype Written =
    | Bare(t: seq<Segment>, comment: string)
    | Double(raw: string, t: seq<Segment>, tail: string, comment: string)
    | Single(raw: string, tail: string, comment: string)

  function WrittenText(w: Written): string {
    match w
    case Bare(t, comment) => TemplateText(t) + comment
    case Double(raw, _, tail, comment) => "\"" + (raw + "\"" + (tail + comment))
    case Single(raw, tail, comment) => "'" + (raw + "'" + (tail + comment))
  }

  predicate WrittenOk(w: Written) {
    && IsComment(w.comment)
    && match w
       case Bare(t, comment) =>
         var text := TemplateText(t);
         WellFormed(t) && NoHash(text) && if text == "" then comment == "" else StartsBare(text[0])
       case Double(raw, t, tail, _) =>
         Quotable(raw, '"') && WellFormed(t) && Spoken(raw) == TemplateText(t) && AllSpace(tail) && NoHash(tail)
       case Single(raw, tail, _) => Quotable(raw, '\'') && NoHash(tail)
  }

  /** Bare and double-quoted values are expanded; single-quoted text is not; a comment is dropped, and
      so is white space behind a closing quote, but no other text. */
  function WrittenMeans(w: Written, known: Env): string {
    match w
    case Bare(t, _) => Means(t, known)
    case Double(_, t, _, _) => Means(t, known)
    case Single(raw, tail, _) => Kept(raw, '\'') + (if AllSpace(tail) then "" else tail)
  }

  lemma {:induction false} CommentCut(text: string, comment: string)
    requires NoHash(text) && IsComment(comment)
    ensures StripBare(text + comment) == text
  {
    var s := text + comment;
    if text == "" {
      assert s == comment;
    } else {
      assert s[1..] == text[1..] + comment;
      CommentCut(text[1..], comment);
      assert text == [text[0]] + text[1..];
    }
  }

  lemma {:induction false} TrimOfSpace(s: string)
    ensures TrimSpace(s) == "" <==> AllSpace(s)
    decreases |s|
  {
    if s != "" {
      if IsSpace(s[0]) {
        TrimOfSpace(s[1..]);
        assert forall i :: 1 <= i < |s| ==> s[i] == s[1..][i - 1];
      } else if IsSpace(s[|s| - 1]) {
        TrimOfSpace(s[..|s| - 1]);
        assert s[..|s| - 1][0] == s[0];
      }
    }
  }

  lemma TailStrips(content: string, tail: string, comment: string)
    requires NoHash(tail) && IsComment(comment)
    ensures StripQuoted(content, tail + comment) == content + (if AllSpace(tail) then "" else tail)
  {
    CommentCut(tail, comment);
    TrimOfSpace(tail);
    assert content + "" == content;
  }

  lemma {:induction false} QuoteScans(raw: string, q: char, after: string)
    requires Quotable(raw, q) && q != '\\'
    ensures Scan(raw + [q] + after, q) == Some(Cut(Kept(raw, q), after))
    decreases |raw|
  {
    var s := raw + [q] + after;
    if raw == "" {
      assert s[0] == q && s[1..] == after;
    } else if raw[0] == '\\' {
      QuoteScans(raw[2..], q, after);
      assert s[2..] == raw[2..] + [q] + after && s[..2] == raw[..2];
    } else {
      QuoteScans(raw[1..], q, after);
      assert s[1..] == raw[1..] + [q] + after && s[..1] == [raw[0]];
    }
  }

  /** Taking out the quotes first and the other escapes afterwards is the same as one pass. */
  lemma {:induction false} TwoPassesAreOne(raw: string)
    requires Quotable(raw, '"')
    ensures Unescape(Kept(raw, '"')) == Spoken(raw)
    decreases |raw|
  {
    var s := Kept(raw, '"');
    if raw == "" {
    } else if raw[0] == '\\' {
      var rest := Kept(raw[2..], '"');
      TwoPassesAreOne(raw[2..]);
      if raw[1] == '"' {
        assert s[1..] == rest;
      } else {
        UnescapePair(raw[1], rest);
        assert s == ['\\', raw[1]] + rest;
      }
    } else {
      TwoPassesAreOne(raw[1..]);
      assert s[1..] == Kept(raw[1..], '"');
    }
  }

  lemma UnescapePair(c: char, rest: string)
    ensures Unescape(['\\', c] + rest) == (if Escaped(c).Some? then [Escaped(c).value] else ['\\', c]) + Unescape(rest)
  {
    var s := ['\\', c] + rest;
    assert s[2..] == rest && s[1..] == [c] + rest && s[1..][1..] == rest;
  }

  lemma {:induction false} BlanksTrim(blank: string, rest: string)
    requires Blanks(blank) && (rest != "" ==> rest[0] != ' ' && rest[0] != '\t')
    ensures TrimLeft(blank + rest) == rest
  {
    if blank == "" {
      assert blank + rest == rest;
    } else {
      assert (blank + rest)[1..] == blank[1..] + rest;
      BlanksTrim(blank[1..], rest);
    }
  }

  lemma BareTrims(text: string, comment: string, pad: string)
    requires Blanks(pad) && NoHash(text) && IsComment(comment)
    requires if text == "" then comment == "" else StartsBare(text[0])
    ensures TrimLeft(pad + (text + comment)) == text + comment && StripBare(text + comment) == text
    ensures var s := text + comment; s == "" || (s[0] != '`' && s[0] != '\'' && s[0] != '"')
  {
    assert text != "" ==> text[0] != ' ' && text[0] != '\t' && (text + comment)[0] == text[0];
    BlanksTrim(pad, text + comment);
    CommentCut(text, comment);
  }

  lemma BareDispatch(raw: string, s: string, text: string, resolved: Env, env: Env)
    requires TrimLeft(raw) == s && StripBare(s) == text && (s == "" || (s[0] != '`' && s[0] != '\'' && s[0] != '"'))
    ensures ValueOf(raw, resolved, env) == Some(Interpolate(text, resolved, env))
  {
  }

  lemma BareReads(t: seq<Segment>, comment: string, pad: string, resolved: Env, env: Env)
    requires WrittenOk(Bare(t, comment)) && Blanks(pad)
    ensures ValueOf(pad + WrittenText(Bare(t, comment)), resolved, env) == Some(Means(t, env + resolved))
  {
    var text := TemplateText(t);
    BareTrims(text, comment, pad);
    BareDispatch(pad + (text + comment), text + comment, text, resolved, env);
    TemplateReads(t, resolved, env);
  }

  lemma QuotedDispatch(raw: string, q: char, body: string, content: string, rest: string, resolved: Env, env: Env)
    requires TrimLeft(raw) == [q] + body && (q == '"' || q == '\'') && Scan(body, q) == Some(Cut(content, rest))
    ensures var value := StripQuoted(content, rest);
            ValueOf(raw, resolved, env) == Some(if q == '"' then Interpolate(Unescape(value), resolved, env) else value)
  {
    assert ([q] + body)[1..] == body;
  }

  lemma DoubleReads(raw: string, t: seq<Segment>, tail: string, comment: string, pad: string, resolved: Env, env: Env)
    requires WrittenOk(Double(raw, t, tail, comment)) && Blanks(pad)
    ensures ValueOf(pad + WrittenText(Double(raw, t, tail, comment)), resolved, env) == Some(Means(t, env + resolved))
  {
    var content, rest := Kept(raw, '"'), tail + comment;
    var body := raw + "\"" + rest;
    BlanksTrim(pad, "\"" + body);
    QuoteScans(raw, '"', rest);
    QuotedDispatch(pad + ("\"" + body), '"', body, content, rest, resolved, env);
    TailStrips(content, tail, comment);
    assert content + "" == content;
    TwoPassesAreOne(raw);
    TemplateReads(t, resolved, env);
  }

  lemma SingleReads(raw: string, tail: string, comment: string, pad: string, resolved: Env, env: Env)
    requires WrittenOk(Single(raw, tail, comment)) && Blanks(pad)
    ensures ValueOf(pad + WrittenText(Single(raw, tail, comment)), resolved, env)
              == Some(Kept(raw, '\'') + (if AllSpace(tail) then "" else tail))
  {
    var content, rest := Kept(raw, '\''), tail + comment;
    var body := raw + "'" + rest;
    BlanksTrim(pad, "'" + body);
    QuoteScans(raw, '\'', rest);
    QuotedDispatch(pad + ("'" + body), '\'', body, content, rest, resolved, env);
    TailStrips(content, tail, comment);
  }

  lemma WrittenReads(w: Written, pad: string, resolved: Env, env: Env)
    requires WrittenOk(w) && Blanks(pad)
    ensures ValueOf(pad + WrittenText(w), resolved, env) == Some(WrittenMeans(w, env + resolved))
  {
    match w
    case Bare(t, comment) => BareReads(t, comment, pad, resolved, env);
    case Double(raw, t, tail, comment) => DoubleReads(raw, t, tail, comment, pad, resolved, env);
    case Single(raw, tail, comment) => SingleReads(raw, tail, comment, pad, resolved, env);
  }

  /** An empty bare value does not lose its comment: the comment is its value. */
  lemma CommentBecomesValue(pad: string, comment: string, resolved: Env, env: Env)
    requires Blanks(pad) && pad != "" && comment != "" && comment[0] == '#' && NoHash(comment) && '$' !in comment
    ensures ValueOf(pad + comment, resolved, env) == Some(comment)
  {
    BlanksTrim(pad, comment);
    CommentCut(comment, "");
    assert comment + "" == comment;
    PlainReads(comment, "", resolved, env);
  }

  // ---- what a file means ----

  /** What stands in a file: a blank line or a comment, an assignment, or a literal block over as many
      lines as it takes. Lines may end in a carriage return. */
  datatype Said =
    | Note(blank: string, remark: string, cr: bool)
    | Assigns(key: string, value: Written, indent: string, gap: string, pad: string, cr: bool)
    | Literally(key: string, text: string)

  function LineText(indent: string, key: string, gap: string, expr: string): string {
    indent + (key + gap + ("=" + expr))
  }

  function Ended(line: string, cr: bool): string {
    if cr then line + "\r" else line
  }

  function SaidText(x: Said): string {
    match x
    case Note(blank, remark, cr) => Ended(blank + remark, cr)
    case Assigns(key, value, indent, gap, pad, cr) => Ended(LineText(indent, key, gap, pad + WrittenText(value)), cr)
    case Literally(key, text) => EntryText(Entry(key, text, true))
  }

  predicate LineOk(line: string) {
    '\n' !in line && (line != "" ==> line[|line| - 1] != '\r')
  }

  predicate SaidOk(x: Said) {
    match x
    case Note(blank, remark, _) => Blanks(blank) && (remark == "" || remark[0] == '#') && LineOk(blank + remark)
    case Assigns(key, value, indent, gap, pad, _) =>
      && IsIdentifier(key) && WrittenOk(value) && Blanks(indent) && Blanks(gap) && Blanks(pad)
      && LineOk(LineText(indent, key, gap, pad + WrittenText(value)))
    case Literally(key, text) => IsIdentifier(key) && Literal(text)
  }

  function PairSaid(x: Said, known: Env): EnvPair
    requires !x.Note?
  {
    EnvPair(x.key, if x.Assigns? then WrittenMeans(x.value, known) else x.text)
  }

  function FileText(file: seq<Said>): string {
    if file == [] then "" else SaidText(file[0]) + "\n" + FileText(file[1..])
  }

  function FileLines(file: seq<Said>): seq<string> {
    if file == [] then [] else Split(SaidText(file[0])) + FileLines(file[1..])
  }

  predicate FileOk(file: seq<Said>) {
    forall x :: x in file ==> SaidOk(x)
  }

  function PairsSaid(x: Said, known: Env): seq<EnvPair> {
    if x.Note? then [] else [PairSaid(x, known)]
  }

  function KnownAfter(x: Said, known: Env): Env {
    if x.Note? then known else known[x.key := PairSaid(x, known).value]
  }

  /** Line by line, starting from what is known already, each assignment known from then on. */
  function Evaluated(file: seq<Said>, known: Env): seq<EnvPair> {
    if file == [] then [] else PairsSaid(file[0], known) + Evaluated(file[1..], KnownAfter(file[0], known))
  }

  lemma EndTrims(line: string, cr: bool)
    requires LineOk(line)
    ensures TrimCR(Ended(line, cr)) == line && Split(Ended(line, cr)) == [Ended(line, cr)]
  {
    if cr {
      assert (line + "\r")[..|line|] == line;
    }
    OneLine(Ended(line, cr));
  }

  lemma {:induction false} KeyTrims(key: string, gap: string)
    requires IsIdentifier(key) && Blanks(gap)
    ensures TrimSpace(key + gap) == key
    decreases |gap|
  {
    if gap == "" {
      assert key + gap == key;
      IdentifierTrims(key);
    } else {
      var s, n := key + gap, |gap| - 1;
      KeyTrims(key, gap[..n]);
      assert s[..|s| - 1] == key + gap[..n] && s[0] == key[0] && s[|s| - 1] == gap[n];
    }
  }

  lemma LineClassifies(indent: string, key: string, gap: string, expr: string, cr: bool)
    requires IsIdentifier(key) && Blanks(indent) && Blanks(gap) && LineOk(LineText(indent, key, gap, expr))
    ensures Classify(Ended(LineText(indent, key, gap, expr), cr)) == Assignment(key, expr)
  {
    var left := key + gap;
    var trimmed := left + ("=" + expr);
    EndTrims(LineText(indent, key, gap, expr), cr);
    assert trimmed[0] == key[0];
    BlanksTrim(indent, trimmed);
    IndexAfter(left, "=" + expr, '=');
    assert ("=" + expr)[0] == '=';
    assert trimmed[..|left|] == left && trimmed[|left| + 1..] == expr;
    KeyTrims(key, gap);
  }

  /** What the entry at the head of some lines turns out to be. */
  function Expected(x: Said, known: Env): Item {
    if x.Note? then Skip else Pair(PairSaid(x, known), |Split(SaidText(x))| - 1)
  }

  ghost predicate Says(read: Reader, x: Said) {
    && (x.Note? ==> |Split(SaidText(x))| == 1)
    && forall rest, lineNo, resolved, env ::
      read(Split(SaidText(x)) + rest, lineNo, resolved, env) == Expected(x, env + resolved)
  }

  lemma NoteReads(x: Said, rest: seq<string>, lineNo: nat, resolved: Env, env: Env)
    requires SaidOk(x) && x.Note?
    ensures |Split(SaidText(x))| == 1 && ItemAt(Split(SaidText(x)) + rest, lineNo, resolved, env) == Skip
  {
    EndTrims(x.blank + x.remark, x.cr);
    BlanksTrim(x.blank, x.remark);
  }

  lemma AssignsReads(x: Said, rest: seq<string>, lineNo: nat, resolved: Env, env: Env)
    requires SaidOk(x) && x.Assigns?
    ensures ItemAt(Split(SaidText(x)) + rest, lineNo, resolved, env) == Expected(x, env + resolved)
  {
    var expr := x.pad + WrittenText(x.value);
    EndTrims(LineText(x.indent, x.key, x.gap, expr), x.cr);
    LineClassifies(x.indent, x.key, x.gap, expr, x.cr);
    WrittenReads(x.value, x.pad, resolved, env);
    ItemIsPair([SaidText(x)] + rest, x.key, expr, Some(WrittenMeans(x.value, env + resolved)), lineNo, resolved, env);
  }

  lemma SaidReads(x: Said)
    requires SaidOk(x)
    ensures Says(ItemAt, x)
  {
    if x.Note? {
      EndTrims(x.blank + x.remark, x.cr);
    }
    forall rest, lineNo, resolved, env
      ensures ItemAt(Split(SaidText(x)) + rest, lineNo, resolved, env) == Expected(x, env + resolved) {
      match x
      case Note(_, _, _) => NoteReads(x, rest, lineNo, resolved, env);
      case Assigns(_, _, _, _, _, _) => AssignsReads(x, rest, lineNo, resolved, env);
      case Literally(key, text) => BlockEntryReads(Entry(key, text, true), rest, lineNo, resolved, env);
    }
  }

  lemma LineAndMore(line: string, rest: string, more: string)
    ensures line + "\n" + rest + more == line + "\n" + (rest + more)
  {
  }

  lemma {:induction false} FileSplits(file: seq<Said>, more: string)
    ensures Split(FileText(file) + more) == FileLines(file) + Split(more)
  {
    if file == [] {
      assert FileText(file) + more == more;
    } else {
      var x, rest := SaidText(file[0]), FileText(file[1..]);
      FileSplits(file[1..], more);
      SplitAppends(x, rest + more);
      LineAndMore(x, rest, more);
      ConcatIsAssociative(Split(x), FileLines(file[1..]), Split(more));
    }
  }

  /** The keys of the file behind an item. */
  function KeysAfter(x: Said, resolved: Env, env: Env): Env {
    if x.Note? then resolved else resolved[x.key := PairSaid(x, env + resolved).value]
  }

  lemma KnownGrows(x: Said, resolved: Env, env: Env)
    ensures KnownAfter(x, env + resolved) == env + KeysAfter(x, resolved, env)
  {
  }

  lemma EvaluatedGrows(file: seq<Said>, resolved: Env, env: Env)
    requires file != []
    ensures Evaluated(file, env + resolved)
         == PairsSaid(file[0], env + resolved) + Evaluated(file[1..], env + KeysAfter(file[0], resolved, env))
  {
    KnownGrows(file[0], resolved, env);
  }

  lemma ReadAllPasses(read: Reader, line: seq<string>, rest: seq<string>, lineNo: nat, resolved: Env, env: Env)
    requires |line| == 1 && read(line + rest, lineNo, resolved, env) == Skip
    ensures ReadAll(read, line + rest, lineNo, resolved, env) == ReadAll(read, rest, lineNo + 1, resolved, env)
  {
    assert (line + rest)[1..] == rest;
  }

  lemma SaidTaken(read: Reader, x: Said, lines: seq<string>, rest: seq<string>, lineNo: nat, resolved: Env, env: Env)
    requires Says(read, x) && lines == Split(SaidText(x))
    ensures ReadAll(read, lines + rest, lineNo, resolved, env)
         == Prefixed(PairsSaid(x, env + resolved),
             ReadAll(read, rest, lineNo + |lines|, KeysAfter(x, resolved, env), env))
  {
    assert read(lines + rest, lineNo, resolved, env) == Expected(x, env + resolved);
    if x.Note? {
      ReadAllPasses(read, lines, rest, lineNo, resolved, env);
      PrefixesNothing(ReadAll(read, rest, lineNo + 1, resolved, env));
    } else {
      ReadAllTakes(read, lines, rest, lineNo, resolved, env, PairSaid(x, env + resolved));
    }
  }

  lemma PrefixesChain(whole: Parsed, middle: Parsed, behind: Parsed, first: seq<EnvPair>, others: seq<EnvPair>,
                      pairs: seq<EnvPair>)
    requires whole == Prefixed(first, middle) && middle == Prefixed(others, behind) && pairs == first + others
    ensures whole == Prefixed(pairs, behind)
  {
    PrefixesAdd(first, others, behind);
  }

  ghost predicate AllSaid(read: Reader, file: seq<Said>) {
    forall i {:trigger Says(read, file[i])} :: 0 <= i < |file| ==> Says(read, file[i])
  }

  lemma FirstTaken(read: Reader, file: seq<Said>, all: seq<string>, more: seq<string>, lineNo: nat, resolved: Env,
                   env: Env)
    returns (lines: seq<string>, rest: seq<string>, first: seq<EnvPair>, kept: Env)
    requires file != [] && AllSaid(read, file) && all == FileLines(file) + more
    ensures AllSaid(read, file[1..]) && rest == FileLines(file[1..]) + more
    ensures |FileLines(file)| == |lines| + |FileLines(file[1..])|
    ensures Evaluated(file, env + resolved) == first + Evaluated(file[1..], env + kept)
    ensures ReadAll(read, all, lineNo, resolved, env)
              == Prefixed(first, ReadAll(read, rest, lineNo + |lines|, kept, env))
  {
    lines, rest := Split(SaidText(file[0])), FileLines(file[1..]) + more;
    first, kept := PairsSaid(file[0], env + resolved), KeysAfter(file[0], resolved, env);
    assert Says(read, file[0]);
    ConcatIsAssociative(lines, FileLines(file[1..]), more);
    SaidTaken(read, file[0], lines, rest, lineNo, resolved, env);
    EvaluatedGrows(file, resolved, env);
    forall i | 0 <= i < |file| - 1 ensures Says(read, file[1..][i]) {
      assert Says(read, file[i + 1]);
    }
  }

  /** The reader gets through a file, and goes on behind it with the keys of the file. */
  lemma {:induction false} FileReads(read: Reader, file: seq<Said>, all: seq<string>, more: seq<string>, lineNo: nat,
                                     next: nat, pairs: seq<EnvPair>, resolved: Env, env: Env)
    returns (after: Env)
    requires AllSaid(read, file) && all == FileLines(file) + more && next == lineNo + |FileLines(file)|
    requires pairs == Evaluated(file, env + resolved)
    ensures ReadAll(read, all, lineNo, resolved, env) == Prefixed(pairs, ReadAll(read, more, next, after, env))
    decreases |file|
  {
    if file == [] {
      after := resolved;
      assert all == more;
      PrefixesNothing(ReadAll(read, more, lineNo, resolved, env));
    } else {
      var lines, rest, first, kept := FirstTaken(read, file, all, more, lineNo, resolved, env);
      var others := Evaluated(file[1..], env + kept);
      after := FileReads(read, file[1..], rest, more, lineNo + |lines|, next, others, kept, env);
      PrefixesChain(ReadAll(read, all, lineNo, resolved, env), ReadAll(read, rest, lineNo + |lines|, kept, env),
          ReadAll(read, more, next, after, env), first, others, pairs);
    }
  }

  lemma FileIsSaid(file: seq<Said>)
    requires FileOk(file)
    ensures AllSaid(ItemAt, file)
  {
    forall i | 0 <= i < |file| ensures Says(ItemAt, file[i]) {
      SaidReads(file[i]);
    }
  }

  /** Whatever stands behind a file, its pairs come first, with what its assignments say. */
  lemma FileThenMore(read: Reader, file: seq<Said>, more: seq<string>, env: Env) returns (after: Env)
    requires AllSaid(read, file)
    ensures ReadAll(read, FileLines(file) + more, 1, map[], env)
         == Prefixed(Evaluated(file, env), ReadAll(read, more, 1 + |FileLines(file)|, after, env))
  {
    assert env + map[] == env;
    after := FileReads(read, file, FileLines(file) + more, more, 1, 1 + |FileLines(file)|, Evaluated(file, env), map[],
        env);
  }

  lemma FileAlone(read: Reader, file: seq<Said>, env: Env)
    requires AllSaid(read, file) && SkipsLast(read)
    ensures ReadAll(read, FileLines(file) + [""], 1, map[], env) == Ok(Evaluated(file, env))
  {
    var after := FileThenMore(read, file, [""], env);
    ReadAllSkips(read, "", 1 + |FileLines(file)|, after, env);
    assert Evaluated(file, env) + [] == Evaluated(file, env);
  }

  /** A file of comments, blank lines, assignments in every style and blocks is read as its
      assignments one after the other, each expanded by the environment and the keys before it. */
  lemma FileMeans(file: seq<Said>, env: Env)
    requires FileOk(file)
    ensures Parse(FileText(file), env) == Ok(Evaluated(file, env))
  {
    FileSplits(file, "");
    assert FileText(file) + "" == FileText(file) && Split("") == [""];
    FileIsSaid(file);
    LastLineDelivered();
    FileAlone(ItemAt, file, env);
  }

  // ---- lines that cannot be read ----

  /** Whatever was read before, the first of these lines is an error. */
  ghost predicate Fails(read: Reader, lines: seq<string>, lineNo: nat, env: Env, error: LineError) {
    lines != [] && forall resolved :: read(lines, lineNo, resolved, env) == Wrong(error)
  }

  lemma FileThenError(read: Reader, file: seq<Said>, lines: seq<string>, env: Env, error: LineError)
    requires AllSaid(read, file) && Fails(read, lines, 1 + |FileLines(file)|, env, error)
    ensures ReadAll(read, FileLines(file) + lines, 1, map[], env) == Failed(error)
  {
    var after := FileThenMore(read, file, lines, env);
    assert read(lines, 1 + |FileLines(file)|, after, env) == Wrong(error);
  }

  lemma ErrorInFile(file: seq<Said>, line: string, more: string, env: Env, error: LineError)
    requires FileOk(file) && '\n' !in line
    requires Fails(ItemAt, [line] + Split(more), 1 + |FileLines(file)|, env, error)
    ensures Parse(FileText(file) + (line + "\n" + more), env) == Failed(error)
  {
    FileSplits(file, line + "\n" + more);
    SplitAtNewline(line, more);
    FileIsSaid(file);
    FileThenError(ItemAt, file, [line] + Split(more), env, error);
  }

  lemma NoEqualsSign(blank: string, text: string)
    requires Blanks(blank) && text != "" && text[0] != ' ' && text[0] != '\t' && text[0] != '#'
    requires '=' !in text && LineOk(blank + text)
    ensures Classify(blank + text) == NoAssignment
  {
    EndTrims(blank + text, false);
    BlanksTrim(blank, text);
    IndexIsFirst(text, '=');
  }

  /** The first line that is neither blank nor a comment and has no equals sign fails the whole file,
      with its number. */
  lemma MalformedLine(file: seq<Said>, blank: string, text: string, more: string, env: Env)
    requires FileOk(file) && LineOk(blank + text) && Blanks(blank) && '=' !in text
    requires text != "" && text[0] != ' ' && text[0] != '\t' && text[0] != '#'
    ensures Parse(FileText(file) + (blank + text + "\n" + more), env) == Failed(Malformed(1 + |FileLines(file)|))
  {
    NoEqualsSign(blank, text);
    ErrorInFile(file, blank + text, more, env, Malformed(1 + |FileLines(file)|));
  }

  lemma {:induction false} NoClose(s: string, q: char)
    requires q !in s
    ensures Scan(s, q).None?
    decreases |s|
  {
    if s != "" {
      if s[0] == '\\' && |s| > 1 {
        NoClose(s[2..], q);
      } else {
        NoClose(s[1..], q);
      }
    }
  }

  lemma OpenValue(pad: string, q: char, body: string, resolved: Env, env: Env)
    requires Blanks(pad) && (q == '"' || q == '\'' || q == '`') && q !in body
    ensures var expr := [q] + body; ValueOf(pad + expr, resolved, env).None? && TrimLeft(pad + expr) == expr
  {
    var expr := [q] + body;
    BlanksTrim(pad, expr);
    assert expr[1..] == body;
    NoClose(body, q);
  }

  lemma OpenItem(line: string, rest: seq<string>, key: string, expr: string, lineNo: nat, resolved: Env, env: Env)
    requires Classify(line) == Assignment(key, expr) && ValueOf(expr, resolved, env).None?
    requires TrimLeft(expr) == "" || TrimLeft(expr)[0] != '`'
    ensures ItemAt([line] + rest, lineNo, resolved, env) == Wrong(Unterminated(lineNo))
  {
    ItemIsPair([line] + rest, key, expr, None, lineNo, resolved, env);
  }

  lemma OpenLineFails(line: string, rest: seq<string>, key: string, pad: string, q: char, body: string, lineNo: nat,
                      env: Env)
    requires Blanks(pad) && (q == '"' || q == '\'') && q !in body
    requires Classify(line) == Assignment(key, pad + ([q] + body))
    ensures Fails(ItemAt, [line] + rest, lineNo, env, Unterminated(lineNo))
  {
    forall resolved ensures ItemAt([line] + rest, lineNo, resolved, env) == Wrong(Unterminated(lineNo)) {
      OpenValue(pad, q, body, resolved, env);
      OpenItem(line, rest, key, pad + ([q] + body), lineNo, resolved, env);
    }
  }

  /** A quote that is not closed on its line fails the file with the number of that line. */
  lemma OpenQuote(file: seq<Said>, indent: string, key: string, gap: string, pad: string, q: char, body: string,
                  more: string, env: Env)
    requires FileOk(file) && IsIdentifier(key) && Blanks(indent) && Blanks(gap) && Blanks(pad)
    requires (q == '"' || q == '\'') && q !in body && LineOk(LineText(indent, key, gap, pad + ([q] + body)))
    ensures Parse(FileText(file) + (LineText(indent, key, gap, pad + ([q] + body)) + "\n" + more), env)
         == Failed(Unterminated(1 + |FileLines(file)|))
  {
    var expr := pad + ([q] + body);
    LineClassifies(indent, key, gap, expr, false);
    var line, lineNo := LineText(indent, key, gap, expr), 1 + |FileLines(file)|;
    OpenLineFails(line, Split(more), key, pad, q, body, lineNo, env);
    ErrorInFile(file, line, more, env, Unterminated(lineNo));
  }

  // ---- an example ----

  function Line(key: string, t: seq<Segment>): Said {
    Assigns(key, Bare(t, ""), "", "", "", false)
  }

  lemma LineIs(key: string, t: seq<Segment>, text: string)
    requires IsIdentifier(key) && WellFormed(t) && text == TemplateText(t) && NoHash(text) && LineOk(text)
    requires text != "" ==> StartsBare(text[0])
    ensures SaidOk(Line(key, t)) && SaidText(Line(key, t)) == key + "=" + text
  {
    assert text + "" == text;
    assert LineText("", key, "", "" + text) == key + "=" + text;
  }

  lemma OneSegment(g: Segment, known: Env)
    requires SegmentOk(g)
    ensures WellFormed([g]) && TemplateText([g]) == SegmentText(g) && Means([g], known) == SegmentMeans(g, known)
  {
    assert [g][1..] == [];
    assert WellFormed([]) && TemplateText([]) == "" && Means([], known) == "";
    assert SegmentText(g) + "" == SegmentText(g) && SegmentMeans(g, known) + "" == SegmentMeans(g, known);
  }

  lemma FileOfOne(x: Said, known: Env)
    requires !x.Note?
    ensures FileText([x]) == SaidText(x) + "\n" && Evaluated([x], known) == [PairSaid(x, known)]
  {
    assert [x][1..] == [] && FileText([]) == "" && Evaluated([], KnownAfter(x, known)) == [];
    assert SaidText(x) + "\n" + "" == SaidText(x) + "\n";
  }

  lemma FileOfTwo(x: Said, y: Said, known: Env)
    requires !x.Note? && !y.Note?
    ensures FileText([x, y]) == SaidText(x) + "\n" + (SaidText(y) + "\n")
    ensures Evaluated([x, y], known) == [PairSaid(x, known), PairSaid(y, KnownAfter(x, known))]
  {
    assert [x, y][1..] == [y];
    FileOfOne(y, KnownAfter(x, known));
  }

  lemma AssignedThenUsed(name: string, key: string, g: Segment, text: string, env: Env)
    requires IsIdentifier(name) && IsIdentifier(key) && g.Braced? && SegmentOk(g) && text == SegmentText(g)
    requires NoHash(text) && LineOk(text)
    ensures Parse(name + "=" + "" + "\n" + (key + "=" + text + "\n"), env)
         == Ok([EnvPair(name, ""), EnvPair(key, SegmentMeans(g, env[name := ""]))])
  {
    var first, second := Line(name, []), Line(key, [g]);
    OneSegment(g, env[name := ""]);
    LineIs(name, [], "");
    LineIs(key, [g], text);
    FileMeans([first, second], env);
    FileOfTwo(first, second, env);
  }

  lemma BracedLine(name: string, op: BraceOp, arg: string)
    requires IsIdentifier(name) && '\n' !in arg && NoHash(arg)
    ensures var text := SegmentText(Braced(name, op, arg)); NoHash(text) && LineOk(text)
  {
    var text := SegmentText(Braced(name, op, arg));
    var n := |name| + |OpText(op)| + 2;
    assert text[|text| - 1] == '}';
    forall i | 0 <= i < |text| - 1 ensures !(text[i] == ' ' && text[i + 1] == '#') {
      if n <= i < |text| - 2 {
        assert text[i] == arg[i - n] && text[i + 1] == arg[i + 1 - n];
      }
    }
  }

  /** A variable that an earlier line has set to nothing: :- brings the argument and - does not, +
      brings it and :+ does not, whatever the environment holds. */
  lemma EmptyIsNotUnset(name: string, key: string, op: BraceOp, arg: string, env: Env)
    requires IsIdentifier(name) && IsIdentifier(key) && !op.NoOp? && SegmentOk(Braced(name, op, arg))
    requires '\n' !in arg && NoHash(arg)
    ensures var text := "${" + (name + (OpText(op) + arg)) + "}";
            Parse(name + "=" + "" + "\n" + (key + "=" + text + "\n"), env)
              == Ok([EnvPair(name, ""), EnvPair(key, if op.OrIfEmpty? || op.AltIfSet? then arg else "")])
  {
    BracedLine(name, op, arg);
    AssignedThenUsed(name, key, Braced(name, op, arg), SegmentText(Braced(name, op, arg)), env);
  }
}
